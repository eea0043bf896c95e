/**
 What a run owes to the provider and what it makes of it, said of the mailbox and the provider's
 answers alone: which history id a run stores, and what it takes for that id to be harmless.
 */
module MailboxFaith {
  import opened Prelude
  import opened Mailbox

  // ---------------------------------------------------------- the provider's answers

  /** A listing is complete at its first page without a successor, when none before was refused. */
  ghost predicate CompleteAt(replies: seq<Reply>, n: int) {
    && 0 <= n < |replies|
    && (forall k | 0 <= k <= n :: replies[k].Page?)
    && (forall k | 0 <= k < n :: replies[k].more)
    && !replies[n].more
  }

  ghost predicate Complete(replies: seq<Reply>) {
    exists n: int :: CompleteAt(replies, n)
  }

  /** `id` is the last history id among the pages up to `n`, or `start` when none of them reports one. */
  ghost predicate LastReported(replies: seq<Reply>, n: int, start: nat, id: nat)
    requires CompleteAt(replies, n)
  {
    || (id == start && forall k | 0 <= k <= n :: replies[k].historyId.None?)
    || (exists j | 0 <= j <= n :: replies[j].historyId == Some(id) && forall k | j < k <= n :: replies[k].historyId.None?)
  }

  /** The mailbox after what arrived before each answer, up to the end of the listing. */
  function Seen(log: seq<Id>, replies: seq<Reply>): seq<Id>
    decreases |replies|
  {
    if replies == [] then log
    else
      var now := Arrive(log, replies[0].arrivals);
      if replies[0].Page? && replies[0].more then Seen(now, replies[1..]) else now
  }

  /** How far an ascending listing from `pos` has come at its end. */
  function Ascended(pos: nat, log: seq<Id>, replies: seq<Reply>): nat
    requires pos <= |log|
    decreases |replies|
  {
    if replies == [] || replies[0].Rejected? then pos
    else
      var now := Arrive(log, replies[0].arrivals);
      var next := if replies[0].size <= |now| - pos then pos + replies[0].size else |now|;
      if replies[0].more then Ascended(next, now, replies[1..]) else next
  }

  /** How far down a descending listing from `pos` has come at its end. */
  function Descended(pos: nat, replies: seq<Reply>): nat
    decreases |replies|
  {
    if replies == [] || replies[0].Rejected? then pos
    else
      var next := if replies[0].size <= pos then pos - replies[0].size else 0;
      if replies[0].more then Descended(next, replies[1..]) else next
  }

  /** A listing is turned down as expired at an answer behind pages that all have successors. */
  ghost predicate ExpiredAt(replies: seq<Reply>, n: int) {
    && 0 <= n < |replies|
    && (forall k | 0 <= k < n :: replies[k].Page? && replies[k].more)
    && replies[n].Rejected? && replies[n].expired
  }

  ghost predicate Expires(replies: seq<Reply>) {
    exists n: int :: ExpiredAt(replies, n)
  }

  // ------------------------------------------------------------------------ runs

  /** The run lists incrementally: there is a cursor, the mailbox reaches it, and the history listing is complete. */
  ghost predicate Incremental(s: State, x: Script) {
    s.cursor.Some? && s.cursor.value <= |Arrive(s.log, x.before)| && Complete(x.history)
  }

  /** A full listing is called for: there is no cursor, the mailbox does not reach it, or its history has expired. */
  ghost predicate CallsForFull(s: State, x: Script) {
    s.cursor.None? || s.cursor.value > |Arrive(s.log, x.before)| || Expires(x.history)
  }

  /** The history answers to its end, or a full listing is called for and profile and pages answer. */
  ghost predicate Succeeds(s: State, x: Script) {
    Incremental(s, x) || (CallsForFull(s, x) && x.profile.Some? && Complete(x.recent))
  }

  /** What a run that succeeds stores: the last history id its pages reported, or that of the profile. */
  ghost predicate CursorFor(s: State, x: Script, id: nat) {
    if Incremental(s, x) then exists n: int :: CompleteAt(x.history, n) && LastReported(x.history, n, s.cursor.value, id)
    else x.profile == Some(id)
  }

  /** The mailbox when a full listing begins. */
  function FullStart(s: State, x: Script): seq<Id> {
    var now := Arrive(s.log, x.before);
    Arrive(if s.cursor.Some? && s.cursor.value <= |now| then Seen(now, x.history) else now, x.between)
  }

  /**
   The provider keeps faith with a run. Incrementally, the id to be stored does not pass what was
   paged; in a full listing the profile's id does not pass the mailbox as it was when the listing
   began, and the listing comes down to the old cursor.
   */
  ghost predicate Faithful(s: State, x: Script) {
    if Incremental(s, x) then
      forall id: nat | CursorFor(s, x, id) :: id <= Ascended(s.cursor.value, Arrive(s.log, x.before), x.history)
    else x.profile.Some? && Complete(x.recent) ==>
      x.profile.value <= |FullStart(s, x)| && Descended(|FullStart(s, x)|, x.recent) <= s.cursor.GetOr(0)
  }

  // ------------------------------------------------------------------- the walks

  /** What arrives is in the mailbox from then on, and nothing else joins it. */
  lemma {:induction false} ArrivalsJoin(log: seq<Id>, arrivals: seq<Id>, id: Id)
    ensures id in Arrive(log, arrivals) <==> id in log || id in arrivals
    decreases |arrivals|
  {
    if arrivals != [] {
      var n := |arrivals| - 1;
      ArrivalsJoin(log, arrivals[..n], id);
      assert arrivals == arrivals[..n] + [arrivals[n]];
    }
  }

  lemma CompleteTail(replies: seq<Reply>, n: int)
    requires replies != [] && replies[0].Page? && replies[0].more
    ensures CompleteAt(replies, n + 1) <==> CompleteAt(replies[1..], n)
  {
    var tail := replies[1..];
    if CompleteAt(tail, n) {
      forall k | 0 <= k <= n + 1 ensures replies[k].Page? && (k < n + 1 ==> replies[k].more) {
        if k > 0 {
          assert replies[k] == tail[k - 1];
        }
      }
      assert replies[n + 1] == tail[n];
    }
    if CompleteAt(replies, n + 1) {
      forall k | 0 <= k <= n ensures tail[k].Page? && (k < n ==> tail[k].more) {
        assert tail[k] == replies[k + 1];
      }
      assert tail[n] == replies[n + 1];
    }
  }

  lemma CompleteOnwards(replies: seq<Reply>)
    requires replies != [] && replies[0].Page? && replies[0].more
    ensures Complete(replies) <==> Complete(replies[1..])
  {
    if Complete(replies) {
      var n: int :| CompleteAt(replies, n);
      assert n > 0;
      CompleteTail(replies, n - 1);
    }
    if Complete(replies[1..]) {
      var n: int :| CompleteAt(replies[1..], n);
      CompleteTail(replies, n);
    }
  }

  lemma LastReportedTail(replies: seq<Reply>, n: int, start: nat, id: nat)
    requires replies != [] && replies[0].Page? && replies[0].more && CompleteAt(replies[1..], n) && CompleteAt(replies, n + 1)
    requires LastReported(replies[1..], n, replies[0].historyId.GetOr(start), id)
    ensures LastReported(replies, n + 1, start, id)
  {
    var tail := replies[1..];
    assert forall k | 0 <= k <= n :: tail[k] == replies[k + 1];
    if j :| 0 <= j <= n && tail[j].historyId == Some(id) && forall k | j < k <= n :: tail[k].historyId.None? {
      assert replies[j + 1].historyId == Some(id);
      forall k | j + 1 < k <= n + 1 ensures replies[k].historyId.None? {
        assert tail[k - 1].historyId.None?;
      }
    } else {
      forall k | 1 <= k <= n + 1 ensures replies[k].historyId.None? {
        assert tail[k - 1].historyId.None?;
      }
      if replies[0].historyId.Some? {
        assert replies[0].historyId == Some(id);
      }
    }
  }

  lemma FirstIsLast(replies: seq<Reply>)
    requires replies != [] && replies[0].Page? && !replies[0].more
    ensures CompleteAt(replies, 0) && forall n: int | CompleteAt(replies, n) :: n == 0
  {
  }

  lemma RefusedIsIncomplete(replies: seq<Reply>)
    requires replies == [] || replies[0].Rejected?
    ensures !Complete(replies)
  {
  }

  lemma ExpiredTail(replies: seq<Reply>, n: int)
    requires replies != [] && replies[0].Page? && replies[0].more
    ensures ExpiredAt(replies, n + 1) <==> ExpiredAt(replies[1..], n)
  {
    var tail := replies[1..];
    assert forall k | 0 <= k < |tail| :: tail[k] == replies[k + 1];
    if ExpiredAt(tail, n) {
      forall k | 0 <= k < n + 1 ensures replies[k].Page? && replies[k].more {
        if k > 0 {
          assert replies[k] == tail[k - 1];
        }
      }
    }
  }

  lemma ExpiresOnwards(replies: seq<Reply>)
    requires replies != [] && replies[0].Page? && replies[0].more
    ensures Expires(replies) <==> Expires(replies[1..])
  {
    if n: int :| ExpiredAt(replies, n) {
      assert n > 0;
      ExpiredTail(replies, n - 1);
    }
    if n: int :| ExpiredAt(replies[1..], n) {
      ExpiredTail(replies, n);
    }
  }

  lemma FirstExpires(replies: seq<Reply>)
    requires replies != [] ==> !(replies[0].Page? && replies[0].more)
    ensures Expires(replies) <==> replies != [] && replies[0].Rejected? && replies[0].expired
  {
    if replies != [] && replies[0].Rejected? && replies[0].expired {
      assert ExpiredAt(replies, 0);
    }
  }

  /** A history walk breaks off as expired exactly when the answers say so. */
  lemma {:induction false} WalkExpires(p: Progress, start: nat, replies: seq<Reply>)
    requires start <= p.pos <= |p.log|
    ensures var l := HistoryWalk(p, start, replies);
            l.Broken? && l.expired <==> Expires(replies)
    decreases |replies|
  {
    if replies != [] && replies[0].Page? && replies[0].more {
      WalkExpires(PageUp(p, start, replies[0]), start, replies[1..]);
      ExpiresOnwards(replies);
    } else {
      FirstExpires(replies);
    }
  }

  /** The history walk, in terms of the answers: complete or not, the id it ends with, and how far it came. */
  lemma {:induction false} HistoryWalkIs(p: Progress, start: nat, replies: seq<Reply>)
    requires start <= p.pos <= |p.log|
    ensures var l := HistoryWalk(p, start, replies);
            (l.Listed? <==> Complete(replies)) && l.log == Seen(p.log, replies) &&
            (l.Listed? ==>
               l.from == start && l.upTo == Ascended(p.pos, p.log, replies) &&
               exists n: int :: CompleteAt(replies, n) && LastReported(replies, n, p.latest, l.latest))
    decreases |replies|
  {
    if replies == [] || replies[0].Rejected? {
      RefusedIsIncomplete(replies);
    } else {
      var q := PageUp(p, start, replies[0]);
      if replies[0].more {
        HistoryWalkIs(q, start, replies[1..]);
        CompleteOnwards(replies);
        var l := HistoryWalk(q, start, replies[1..]);
        if l.Listed? {
          var n: int :| CompleteAt(replies[1..], n) && LastReported(replies[1..], n, q.latest, l.latest);
          CompleteTail(replies, n);
          LastReportedTail(replies, n, p.latest, l.latest);
        }
      } else {
        FirstIsLast(replies);
      }
    }
  }

  lemma {:induction false} RecentWalkIs(p: Progress, top: nat, replies: seq<Reply>)
    requires p.pos <= |p.log|
    ensures var l := RecentWalk(p, top, replies);
            (l.Listed? <==> Complete(replies)) &&
            (l.Listed? ==> l.from == Descended(p.pos, replies) && l.upTo == top && l.latest == p.latest)
    decreases |replies|
  {
    if replies == [] || replies[0].Rejected? {
      RefusedIsIncomplete(replies);
    } else if replies[0].more {
      RecentWalkIs(PageDown(p, replies[0]), top, replies[1..]);
      CompleteOnwards(replies);
    } else {
      FirstIsLast(replies);
    }
  }

  // ------------------------------------------------------------------ the results

  lemma FullListingIs(s: State, x: Script)
    ensures var l, log := FullListing(s, x), Arrive(s.log, x.between);
            (l.Listed? <==> x.profile.Some? && Complete(x.recent)) &&
            (l.Listed? ==> l.latest == x.profile.value && l.from == Descended(|log|, x.recent) && l.upTo == |log|)
  {
    if x.profile.Some? {
      var log := Arrive(s.log, x.between);
      RecentWalkIs(Progress(log, |log|, [], x.profile.value), |log|, x.recent);
    }
  }

  lemma IncrementalListing(s: State, x: Script)
    requires s.cursor.Some? && s.cursor.value <= |Arrive(s.log, x.before)|
    ensures var c, now := s.cursor.value, Arrive(s.log, x.before);
            var l := HistoryWalk(Progress(now, c, [], c), c, x.history);
            (l.Listed? <==> Incremental(s, x)) && l.log == Seen(now, x.history) &&
            (l.Listed? ==>
               ListingOf(s, x) == l && CursorFor(s, x, l.latest) && l.from == c && l.upTo == Ascended(c, now, x.history))
  {
    var c, now := s.cursor.value, Arrive(s.log, x.before);
    HistoryWalkIs(Progress(now, c, [], c), c, x.history);
  }

  /** The listing of a run, in terms of the answers. */
  lemma ListingIs(s: State, x: Script)
    ensures var l := ListingOf(s, x);
            l.Listed? ==>
              CursorFor(s, x, l.latest) &&
              if Incremental(s, x) then
                l.from == s.cursor.value && l.upTo == Ascended(s.cursor.value, Arrive(s.log, x.before), x.history)
              else
                Complete(x.recent) && l.upTo == |FullStart(s, x)| && l.from == Descended(|FullStart(s, x)|, x.recent)
  {
    var now := Arrive(s.log, x.before);
    var t := s.(log := now);
    if s.cursor.None? || s.cursor.value > |now| {
      FullListingIs(t, x);
    } else {
      IncrementalListing(s, x);
      FullListingIs(t.(log := Seen(now, x.history)), x);
    }
  }

  /** The listing of a run is complete exactly then. */
  lemma SucceedsIff(s: State, x: Script)
    ensures ListingOf(s, x).Listed? <==> Succeeds(s, x)
  {
    var now := Arrive(s.log, x.before);
    var t := s.(log := now);
    if s.cursor.None? || s.cursor.value > |now| {
      FullListingIs(t, x);
    } else {
      var c := s.cursor.value;
      IncrementalListing(s, x);
      WalkExpires(Progress(now, c, [], c), c, x.history);
      FullListingIs(t.(log := Seen(now, x.history)), x);
    }
  }

  lemma LastReportedIsOne(replies: seq<Reply>, n: int, start: nat, id: nat, id': nat)
    requires CompleteAt(replies, n) && LastReported(replies, n, start, id) && LastReported(replies, n, start, id')
    ensures id == id'
  {
  }

  lemma CursorIsOne(s: State, x: Script, id: nat, id': nat)
    requires CursorFor(s, x, id) && CursorFor(s, x, id')
    ensures id == id'
  {
    if Incremental(s, x) {
      var n: int :| CompleteAt(x.history, n) && LastReported(x.history, n, s.cursor.value, id);
      var m: int :| CompleteAt(x.history, m) && LastReported(x.history, m, s.cursor.value, id');
      assert n == m by {
        assert x.history[n].Page? && x.history[m].Page?;
      }
      LastReportedIsOne(x.history, n, s.cursor.value, id, id');
    }
  }

  /** Incrementally, faith is a matter of the one id the listing ends with. */
  lemma IncrementalFaith(s: State, x: Script)
    requires Incremental(s, x)
    ensures Faithful(s, x) <==> ListingOf(s, x).Listed? && ListingOf(s, x).latest <= ListingOf(s, x).upTo
  {
    var l := ListingOf(s, x);
    IncrementalListing(s, x);
    forall id: nat | CursorFor(s, x, id) ensures id == l.latest {
      CursorIsOne(s, x, id, l.latest);
    }
  }

  /** What a run that stores a cursor stores. */
  lemma CursorIs(s: State, x: Script)
    requires ListingOf(s, x).Listed? && !x.updateFails
    ensures Sync(s, x).cursor.Some? && CursorFor(s, x, Sync(s, x).cursor.value)
  {
    ListingIs(s, x);
  }

  /** Faith kept: the id listed is covered by the listing, which starts no later than the old cursor. */
  lemma FaithIs(s: State, x: Script)
    requires Faithful(s, x)
    ensures var l := ListingOf(s, x);
            l.Listed? ==> l.latest <= l.upTo && l.from <= s.cursor.GetOr(0)
  {
    ListingIs(s, x);
  }
}
