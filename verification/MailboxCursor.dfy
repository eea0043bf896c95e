/** Nothing below the cursor is lost: on every run of arrivals, full and incremental syncs, fallbacks and failures. */
module MailboxCursor {
  import opened Prelude
  import opened Mailbox
  import opened MailboxFaith

  ghost predicate Covered(log: seq<Id>, from: nat, to: nat, ids: seq<Id>) {
    to <= |log| && forall k | from <= k < to :: log[k] in ids
  }

  lemma {:induction false} JoinedHas(ids: seq<Id>, page: seq<Id>)
    ensures forall id :: id in Joined(ids, page) <==> id in ids || id in page
    ensures Distinct(ids) ==> Distinct(Joined(ids, page))
  {
    if page != [] {
      var init, last := page[..|page| - 1], page[|page| - 1];
      JoinedHas(ids, init);
      assert forall id :: id in page <==> id in init || id == last;
    }
  }

  lemma CoveredGrows(log: seq<Id>, now: seq<Id>, from: nat, mid: nat, to: nat, ids: seq<Id>, page: seq<Id>, next: seq<Id>)
    requires Covered(log, from, mid, ids) && Extends(log, now) && from <= mid <= to <= |now|
    requires forall k | mid <= k < to :: now[k] in page
    requires forall id | id in ids || id in page :: id in next
    ensures Covered(now, from, to, next)
  {
    forall k | from <= k < to ensures now[k] in next {
      if k < mid {
        assert now[k] == log[k];
      }
    }
  }

  lemma Longer(a: seq<Id>, b: seq<Id>, c: seq<Id>)
    requires Extends(a, b) && Extends(b, c)
    ensures Extends(a, c)
  {
  }

  /** One page of the walk extends what is covered up to its end. */
  lemma PageUpCovers(p: Progress, start: nat, page: Reply)
    requires page.Page? && start <= p.pos <= |p.log| && Covered(p.log, start, p.pos, p.ids) && Distinct(p.ids)
    ensures var q := PageUp(p, start, page);
            Extends(p.log, q.log) && Covered(q.log, start, q.pos, q.ids) && Distinct(q.ids)
  {
    var now := Arrive(p.log, page.arrivals);
    var from, to := p.pos - Min(page.back, p.pos - start), p.pos + Min(page.size, |now| - p.pos);
    JoinCovers(p.log, now, start, from, p.pos, to, p.ids);
  }

  lemma JoinCovers(log: seq<Id>, now: seq<Id>, start: nat, from: nat, mid: nat, to: nat, ids: seq<Id>)
    requires start <= mid && from <= mid <= to <= |now| && mid <= |log|
    requires Extends(log, now) && Covered(log, start, mid, ids) && Distinct(ids)
    ensures Covered(now, start, to, Joined(ids, now[from..to])) && Distinct(Joined(ids, now[from..to]))
  {
    SliceHas(now, from, mid, to);
    JoinedHas(ids, now[from..to]);
    CoveredGrows(log, now, start, mid, to, ids, now[from..to], Joined(ids, now[from..to]));
  }

  lemma SliceHas(s: seq<Id>, from: nat, mid: nat, to: nat)
    requires from <= mid <= to <= |s|
    ensures forall k | mid <= k < to :: s[k] in s[from..to]
  {
    forall k | mid <= k < to ensures s[k] in s[from..to] {
      assert s[from..to][k - from] == s[k];
    }
  }

  /** A complete history walk names every message from its start up to where it ended, whatever arrived meanwhile. */
  lemma {:induction false} HistoryCovers(p: Progress, start: nat, replies: seq<Reply>)
    requires start <= p.pos <= |p.log| && Covered(p.log, start, p.pos, p.ids) && Distinct(p.ids)
    ensures var r := HistoryWalk(p, start, replies);
            Extends(p.log, r.log) &&
            (r.Listed? ==> r.from == start && Covered(r.log, r.from, r.upTo, r.ids) && Distinct(r.ids))
    decreases |replies|
  {
    if replies != [] && replies[0].Page? {
      var q := PageUp(p, start, replies[0]);
      PageUpCovers(p, start, replies[0]);
      if replies[0].more {
        HistoryCovers(q, start, replies[1..]);
        Longer(p.log, q.log, HistoryWalk(q, start, replies[1..]).log);
      }
    }
  }

  lemma PageDownCovers(p: Progress, page: Reply, top: nat)
    requires page.Page? && p.pos <= top <= |p.log| && Covered(p.log, p.pos, top, p.ids)
    ensures var q := PageDown(p, page);
            Extends(p.log, q.log) && q.pos <= top <= |q.log| && Covered(q.log, q.pos, top, q.ids)
  {
    var now := Arrive(p.log, page.arrivals);
    var from, to := p.pos - Min(page.size, p.pos), p.pos + Min(page.back, |now| - p.pos);
    var part := now[from..to];
    forall k | from <= k < top ensures now[k] in p.ids + part {
      if k < p.pos {
        assert part[k - from] == now[k];
      } else {
        assert now[k] == p.log[k];
      }
    }
  }

  /** A complete full listing names every message from where it ended up to where the mailbox stood when it began. */
  lemma {:induction false} RecentCovers(p: Progress, top: nat, replies: seq<Reply>)
    requires p.pos <= top <= |p.log| && Covered(p.log, p.pos, top, p.ids)
    ensures var r := RecentWalk(p, top, replies);
            Extends(p.log, r.log) &&
            (r.Listed? ==> r.latest == p.latest && r.upTo == top && Covered(r.log, r.from, r.upTo, r.ids))
    decreases |replies|
  {
    if replies != [] && replies[0].Page? {
      var q := PageDown(p, replies[0]);
      PageDownCovers(p, replies[0], top);
      if replies[0].more {
        RecentCovers(q, top, replies[1..]);
        Longer(p.log, q.log, RecentWalk(q, top, replies[1..]).log);
      }
    }
  }

  /**
   What one message does: a failed fetch is counted and stores nothing; a message already stored is a
   duplicate; a failed insert is counted and stores nothing; a failed enqueue is counted though the
   email is stored; and otherwise it is stored, processed and queued.
   */
  lemma OneMessage(t: Tally, id: Id, fate: Fate)
    ensures var u := One(t, id, fate);
            if fate.FetchFails? || (id !in t.emails && fate.CreateFails?) then
              u == Tally(t.emails, t.processed, t.duplicates, t.queued, t.failed + 1, t.failedIds + {id})
            else if id in t.emails then
              u == Tally(t.emails, t.processed, t.duplicates + 1, t.queued, t.failed, t.failedIds)
            else if fate.EnqueueFails? then
              u == Tally(t.emails + [id], t.processed, t.duplicates, t.queued, t.failed + 1, t.failedIds + {id})
            else u == Tally(t.emails + [id], t.processed + 1, t.duplicates, t.queued + 1, t.failed, t.failedIds)
  {
  }

  lemma {:induction false} AllCounts(emails: seq<Id>, ids: seq<Id>, fates: nat -> Fate)
    ensures var t := All(emails, ids, fates);
            t.processed + t.duplicates + t.failed == |ids| && t.queued == t.processed &&
            |emails| + t.processed <= |t.emails| <= |emails| + t.processed + t.failed
  {
    if ids != [] {
      var n := |ids| - 1;
      AllCounts(emails, ids[..n], fates);
      OneMessage(All(emails, ids[..n], fates), ids[n], fates(n));
    }
  }

  /** The table goes on from where it was, without repetition. */
  ghost predicate GoesOn(emails: seq<Id>, t: Tally) {
    Distinct(t.emails) && |emails| <= |t.emails| && t.emails[..|emails|] == emails
  }

  lemma {:induction false} AllStored(emails: seq<Id>, ids: seq<Id>, fates: nat -> Fate)
    requires Distinct(emails)
    ensures GoesOn(emails, All(emails, ids, fates))
  {
    if ids != [] {
      var init, last := ids[..|ids| - 1], ids[|ids| - 1];
      AllStored(emails, init, fates);
      OneGoesOn(emails, All(emails, init, fates), last, fates(|init|));
    }
  }

  lemma OneGoesOn(emails: seq<Id>, t: Tally, id: Id, fate: Fate)
    requires GoesOn(emails, t)
    ensures GoesOn(emails, One(t, id, fate))
  {
    assert One(t, id, fate).emails == t.emails || (id !in t.emails && One(t, id, fate).emails == t.emails + [id]);
  }

  /** Whatever is handled, and nothing else, is stored or counted as failed beside what was stored. */
  ghost predicate Sorted(emails: seq<Id>, ids: seq<Id>, t: Tally) {
    && (forall id | id in ids :: id in t.emails || id in t.failedIds)
    && (forall id | id in t.failedIds :: id in ids) && (forall id | id in t.emails :: id in emails || id in ids)
  }

  lemma {:induction false} AllSorted(emails: seq<Id>, ids: seq<Id>, fates: nat -> Fate)
    ensures Sorted(emails, ids, All(emails, ids, fates))
  {
    if ids != [] {
      var init, last := ids[..|ids| - 1], ids[|ids| - 1];
      assert ids == init + [last];
      AllSorted(emails, init, fates);
      OneSorted(emails, init, All(emails, init, fates), last, fates(|init|));
    }
  }

  lemma OneSorted(emails: seq<Id>, ids: seq<Id>, t: Tally, id: Id, fate: Fate)
    requires Sorted(emails, ids, t)
    ensures Sorted(emails, ids + [id], One(t, id, fate))
  {
    assert forall x :: x in ids + [id] <==> x in ids || x == id;
    assert forall x :: x in t.emails + [id] <==> x in t.emails || x == id;
  }

  /**
   Every id handled is stored or counted as failed, none is stored twice, and the counters account
   for every id exactly once.
   */
  lemma AllAccounts(emails: seq<Id>, ids: seq<Id>, fates: nat -> Fate)
    requires Distinct(emails)
    ensures var t := All(emails, ids, fates);
            t.processed + t.duplicates + t.failed == |ids| && t.queued == t.processed &&
            |emails| + t.processed <= |t.emails| <= |emails| + t.processed + t.failed
    ensures var t := All(emails, ids, fates);
            Distinct(t.emails) && |emails| <= |t.emails| && t.emails[..|emails|] == emails &&
            (forall id | id in ids :: id in t.emails || id in t.failedIds) &&
            (forall id | id in t.failedIds :: id in ids) && (forall id | id in t.emails :: id in emails || id in ids)
  {
    AllCounts(emails, ids, fates);
    AllStored(emails, ids, fates);
    AllSorted(emails, ids, fates);
  }

  // ------------------------------------------------------------------------ runs

  ghost predicate Known(s: State, id: Id) {
    id in s.emails || id in s.failedEver
  }

  /** Ids are unique in the log and in the table, and everything below the cursor is accounted for. */
  ghost predicate Inv(s: State) {
    && Distinct(s.log) && Distinct(s.emails)
    && (s.cursor.Some? ==> s.cursor.value <= |s.log| && forall k | 0 <= k < s.cursor.value :: Known(s, s.log[k]))
  }

  lemma LogGrows(s: State, log: seq<Id>)
    requires Inv(s) && Extends(s.log, log)
    ensures Inv(s.(log := log))
  {
    var t := s.(log := log);
    if s.cursor.Some? {
      forall k | 0 <= k < s.cursor.value ensures Known(t, t.log[k]) {
        assert t.log[k] == s.log[k];
        assert Known(s, s.log[k]);
      }
    }
  }

  lemma FullListingCovers(s: State, x: Script)
    ensures var l := FullListing(s, x);
            Extends(s.log, l.log) && (l.Listed? ==> Covered(l.log, l.from, l.upTo, l.ids))
  {
    if x.profile.Some? {
      var log := Arrive(s.log, x.between);
      RecentCovers(Progress(log, |log|, [], x.profile.value), |log|, x.recent);
      Longer(s.log, log, FullListing(s, x).log);
    }
  }

  /** Whatever listing a run completes, it names all messages of its span. */
  lemma ListingCovers(s: State, x: Script)
    ensures var l := ListingOf(s, x);
            Extends(s.log, l.log) && (l.Listed? ==> Covered(l.log, l.from, l.upTo, l.ids))
  {
    var now := Arrive(s.log, x.before);
    var t := s.(log := now);
    if t.cursor.None? || t.cursor.value > |now| {
      FullListingCovers(t, x);
      Longer(s.log, now, FullListing(t, x).log);
    } else {
      var c := t.cursor.value;
      HistoryCovers(Progress(now, c, [], c), c, x.history);
      var l := HistoryWalk(Progress(now, c, [], c), c, x.history);
      Longer(s.log, now, l.log);
      if l.Broken? && l.expired {
        FullListingCovers(t.(log := l.log), x);
        Longer(s.log, l.log, FullListing(t.(log := l.log), x).log);
      }
    }
  }

  /**
   No blind spot: if the run is to store a cursor, the mailbox reaches it, and every message between
   the old cursor and it that lies outside the span listed was accounted for before or is listed all
   the same.
   */
  ghost predicate NoBlindSpot(s: State, x: Script) {
    var l, log := ListingOf(s, x), Sync(s, x).log;
    l.Listed? && !x.updateFails ==>
      l.latest <= |log| &&
      forall k | s.cursor.GetOr(0) <= k < l.latest && !(l.from <= k < l.upTo) :: Known(s, log[k]) || log[k] in l.ids
  }

  /** What is accounted for after a run: what was before, and what it listed. */
  lemma KnownAfter(s: State, x: Script, id: Id)
    requires Inv(s)
    ensures var l := ListingOf(s, x);
            Known(Sync(s, x), id) <==> Known(s, id) || (l.Listed? && id in l.ids)
  {
    var l := ListingOf(s, x);
    if l.Listed? {
      AllAccounts(s.emails, l.ids, x.fates);
      var t := All(s.emails, l.ids, x.fates);
      if id in s.emails {
        var i :| 0 <= i < |s.emails| && s.emails[i] == id;
        assert t.emails[..|s.emails|][i] == t.emails[i];
      }
    }
  }

  lemma LogsStayDistinct(s: State, x: Script)
    requires Inv(s)
    ensures Extends(s.log, Sync(s, x).log) && Distinct(Sync(s, x).log) && Distinct(Sync(s, x).emails)
    ensures ListingOf(s, x).Listed? ==> Extends(ListingOf(s, x).log, Sync(s, x).log)
  {
    ListingCovers(s, x);
    var l := ListingOf(s, x);
    if l.Listed? {
      AllAccounts(s.emails, l.ids, x.fates);
      Longer(s.log, l.log, Sync(s, x).log);
    }
  }

  /** A run keeps everything below the cursor accounted for exactly when it has no blind spot. */
  lemma SyncKeepsIff(s: State, x: Script)
    requires Inv(s)
    ensures Inv(Sync(s, x)) <==> NoBlindSpot(s, x)
  {
    var l, t := ListingOf(s, x), Sync(s, x);
    ListingCovers(s, x);
    LogsStayDistinct(s, x);
    if l.Broken? {
      LogGrows(s, l.log);
    } else if x.updateFails {
      OldCursorKept(s, x);
    } else {
      NewCursorIff(s, x);
    }
  }

  lemma OldCursorKept(s: State, x: Script)
    requires Inv(s) && ListingOf(s, x).Listed? && x.updateFails
    ensures Inv(Sync(s, x))
  {
    var t := Sync(s, x);
    LogsStayDistinct(s, x);
    if s.cursor.Some? {
      forall k | 0 <= k < s.cursor.value ensures Known(t, t.log[k]) {
        assert t.log[k] == s.log[k] && Known(s, s.log[k]);
        KnownAfter(s, x, s.log[k]);
      }
    }
  }

  lemma NewCursorIff(s: State, x: Script)
    requires Inv(s) && ListingOf(s, x).Listed? && !x.updateFails
    ensures Inv(Sync(s, x)) <==> NoBlindSpot(s, x)
  {
    var l, t := ListingOf(s, x), Sync(s, x);
    ListingCovers(s, x);
    LogsStayDistinct(s, x);
    forall k | 0 <= k < l.latest && k < |t.log|
      ensures Known(t, t.log[k]) <==> Known(s, t.log[k]) || t.log[k] in l.ids
      ensures l.from <= k < l.upTo ==> t.log[k] in l.ids
    {
      KnownAfter(s, x, t.log[k]);
      if l.from <= k < l.upTo {
        assert t.log[k] == l.log[k];
      }
    }
    BelowOldCursor(s, t.log);
  }

  lemma BelowOldCursor(s: State, log: seq<Id>)
    requires Inv(s) && Extends(s.log, log)
    ensures forall k | 0 <= k < s.cursor.GetOr(0) :: Known(s, log[k])
  {
    forall k | 0 <= k < s.cursor.GetOr(0) ensures Known(s, log[k]) {
      assert log[k] == s.log[k] && Known(s, s.log[k]);
    }
  }

  /** A faithful provider leaves no blind spot. */
  lemma FaithfulIsEnough(s: State, x: Script)
    requires Inv(s) && Faithful(s, x)
    ensures NoBlindSpot(s, x)
  {
    FaithIs(s, x);
    ListingCovers(s, x);
    LogsStayDistinct(s, x);
  }

  /** A run whose one page lists nothing and reports an id past the message that arrived with it. */
  function Overtaken(m: Id): Script {
    Script([], None, [], [Page([m], 0, 0, false, Some(1))], [], _ => Fine, [], false)
  }

  /** A provider that does not keep faith loses the message for good: the cursor has passed it. */
  lemma BlindSpotLosesMail(m: Id)
    ensures var s := State([], [], Some(0), {});
            Inv(s) && Sync(s, Overtaken(m)) == State([m], [], Some(1), {}) && !Inv(Sync(s, Overtaken(m)))
  {
    var s := State([], [], Some(0), {});
    assert Arrive([], []) == [] && Arrive([], [m]) == [m];
    var page := Page([m], 0, 0, false, Some(1));
    assert [m][0..0] == [];
    assert PageUp(Progress([], 0, [], 0), 0, page) == Progress([m], 0, [], 1);
    assert HistoryWalk(Progress([], 0, [], 0), 0, [page]) == Listed([m], [], 1, 0, 0);
    assert ListingOf(s, Overtaken(m)) == Listed([m], [], 1, 0, 0);
    assert Sync(s, Overtaken(m)).log[0] == m;
    assert !Known(Sync(s, Overtaken(m)), m);
  }

  /** In incremental mode the listing starts at the cursor, so faith is a matter of the id alone. */
  lemma IncrementalStartsAtCursor(s: State, x: Script)
    requires s.cursor.Some? && s.cursor.value <= |s.log|
    ensures var c, now := s.cursor.value, Arrive(s.log, x.before);
            var l := HistoryWalk(Progress(now, c, [], c), c, x.history);
            l.Listed? ==> ListingOf(s, x) == l && l.from == c && (Faithful(s, x) <==> l.latest <= l.upTo)
  {
    IncrementalListing(s, x);
    if Incremental(s, x) {
      IncrementalFaith(s, x);
    }
  }

  /** Everything below the cursor is accounted for before run `k`. */
  ghost predicate SafeAt(s: State, runs: seq<Script>, k: nat) {
    k <= |runs| && Inv(StateAt(s, runs, k))
  }

  /** Run `k` has no blind spot. */
  ghost predicate ClearAt(s: State, runs: seq<Script>, k: nat) {
    k < |runs| && NoBlindSpot(StateAt(s, runs, k), runs[k])
  }

  lemma OneRun(s: State, runs: seq<Script>, k: nat)
    requires k < |runs| && SafeAt(s, runs, k)
    ensures SafeAt(s, runs, k + 1) <==> ClearAt(s, runs, k)
  {
    SyncKeepsIff(StateAt(s, runs, k), runs[k]);
  }

  lemma SafeAtStart(s: State, runs: seq<Script>)
    requires Inv(s)
    ensures SafeAt(s, runs, 0)
  {
  }

  lemma {:induction false} LinksHold(links: seq<bool>, joints: seq<bool>, n: nat)
    requires |links| == |joints| + 1 && links[0] && n <= |joints|
    requires forall k | 0 <= k < |joints| && links[k] :: joints[k] ==> links[k + 1]
    requires forall k | 0 <= k < |joints| :: joints[k]
    ensures links[n]
  {
    if n > 0 {
      LinksHold(links, joints, n - 1);
      assert joints[n - 1];
    }
  }

  /** Each link holds from the first on exactly when each joint does. */
  lemma ChainIff(links: seq<bool>, joints: seq<bool>)
    requires |links| == |joints| + 1 && links[0]
    requires forall k | 0 <= k < |joints| && links[k] :: links[k + 1] <==> joints[k]
    ensures (forall k | 0 <= k < |links| :: links[k]) <==> (forall k | 0 <= k < |joints| :: joints[k])
  {
    if forall k | 0 <= k < |links| :: links[k] {
      forall k | 0 <= k < |joints| ensures joints[k] {
        var next := k + 1;
        assert links[k] && links[next];
      }
    }
    if forall k | 0 <= k < |joints| :: joints[k] {
      forall k | 0 <= k < |links| ensures links[k] {
        LinksHold(links, joints, k);
      }
    }
  }

  /**
   No gap below the cursor, exactly. Over any sequence of runs, from any state that is in order,
   everything below the stored cursor stays accounted for after every run, and no message gets two
   emails, if and only if no run has a blind spot.
   */
  lemma NothingIsLostIff(s: State, runs: seq<Script>)
    requires Inv(s)
    ensures (forall k | 0 <= k <= |runs| :: SafeAt(s, runs, k)) <==> (forall k | 0 <= k < |runs| :: ClearAt(s, runs, k))
  {
    var links := seq(|runs| + 1, k requires 0 <= k <= |runs| => SafeAt(s, runs, k));
    var joints := seq(|runs|, k requires 0 <= k < |runs| => ClearAt(s, runs, k));
    SafeAtStart(s, runs);
    forall k | 0 <= k < |runs| && SafeAt(s, runs, k) ensures SafeAt(s, runs, k + 1) <==> ClearAt(s, runs, k) {
      OneRun(s, runs, k);
    }
    ChainIff(links, joints);
    assert forall k | 0 <= k <= |runs| :: links[k] == SafeAt(s, runs, k);
    assert forall k | 0 <= k < |runs| :: joints[k] == ClearAt(s, runs, k);
  }

  ghost predicate FaithfulAt(s: State, runs: seq<Script>, k: nat) {
    k < |runs| && Faithful(StateAt(s, runs, k), runs[k])
  }

  lemma OneFaithfulRun(s: State, runs: seq<Script>, k: nat)
    requires SafeAt(s, runs, k) && FaithfulAt(s, runs, k)
    ensures SafeAt(s, runs, k + 1)
  {
    FaithfulIsEnough(StateAt(s, runs, k), runs[k]);
    OneRun(s, runs, k);
  }

  lemma {:induction false} FaithfulRuns(s: State, runs: seq<Script>, n: nat)
    requires Inv(s) && n <= |runs| && forall k | 0 <= k < n :: FaithfulAt(s, runs, k)
    ensures SafeAt(s, runs, n)
  {
    if n == 0 {
      SafeAtStart(s, runs);
    } else {
      FaithfulRuns(s, runs, n - 1);
      OneFaithfulRun(s, runs, n - 1);
    }
  }

  /**
   So with a faithful provider nothing is lost: after any sequence of runs every message below the
   cursor is a stored email or was counted as failed by some run, and no message has two emails.
   */
  lemma NothingIsLost(log: seq<Id>, runs: seq<Script>)
    requires Distinct(log) && forall k | 0 <= k < |runs| :: FaithfulAt(State(log, [], None, {}), runs, k)
    ensures var s := StateAt(State(log, [], None, {}), runs, |runs|);
            Distinct(s.emails) &&
            (s.cursor.Some? ==>
               s.cursor.value <= |s.log| &&
               forall k | 0 <= k < s.cursor.value :: s.log[k] in s.emails || s.log[k] in s.failedEver)
  {
    FaithfulRuns(State(log, [], None, {}), runs, |runs|);
    var s := StateAt(State(log, [], None, {}), runs, |runs|);
    assert SafeAt(State(log, [], None, {}), runs, |runs|);
    assert forall k | s.cursor.Some? && 0 <= k < s.cursor.value :: Known(s, s.log[k]);
  }

  // ---------------------------------------------------------------------- failures

  /** Message `k` failed: it could not be fetched, or it was new and could not be stored or queued. */
  ghost predicate FailsAt(emails: seq<Id>, ids: seq<Id>, fates: nat -> Fate, k: int) {
    0 <= k < |ids| && (fates(k).FetchFails? || (ids[k] !in All(emails, ids[..k], fates).emails && !fates(k).Fine?))
  }

  ghost function FailedAt(emails: seq<Id>, ids: seq<Id>, fates: nat -> Fate): set<int> {
    set k | 0 <= k < |ids| && FailsAt(emails, ids, fates, k)
  }

  /** The ids at some places. */
  ghost function IdsAt(ids: seq<Id>, places: set<int>): set<Id> {
    set k | k in places && 0 <= k < |ids| :: ids[k]
  }

  lemma FailsAtInit(emails: seq<Id>, ids: seq<Id>, fates: nat -> Fate, k: int)
    requires ids != [] && k < |ids| - 1
    ensures FailsAt(emails, ids[..|ids| - 1], fates, k) <==> FailsAt(emails, ids, fates, k)
  {
    if 0 <= k {
      assert ids[..|ids| - 1][..k] == ids[..k];
    }
  }

  lemma FailedAtMore(emails: seq<Id>, ids: seq<Id>, fates: nat -> Fate)
    requires ids != []
    ensures var n := |ids| - 1;
            FailedAt(emails, ids, fates) ==
              FailedAt(emails, ids[..n], fates) + if FailsAt(emails, ids, fates, n) then {n} else {}
  {
    forall k | 0 <= k < |ids| - 1 ensures FailsAt(emails, ids[..|ids| - 1], fates, k) <==> FailsAt(emails, ids, fates, k) {
      FailsAtInit(emails, ids, fates, k);
    }
  }

  lemma IdsAtInit(ids: seq<Id>, places: set<int>)
    requires ids != [] && forall k | k in places :: 0 <= k < |ids| - 1
    ensures IdsAt(ids[..|ids| - 1], places) == IdsAt(ids, places)
  {
    assert forall k | k in places :: ids[..|ids| - 1][k] == ids[k];
  }

  lemma IdsAtMore(ids: seq<Id>, places: set<int>, n: int)
    requires 0 <= n < |ids|
    ensures IdsAt(ids, places + {n}) == IdsAt(ids, places) + {ids[n]}
  {
  }

  lemma OneMorePlace(places: set<int>, n: int)
    requires n !in places
    ensures |places + {n}| == |places| + 1
  {
  }

  /** The failure counter counts the messages that failed, and the ids recorded are theirs. */
  lemma {:induction false} FailuresAre(emails: seq<Id>, ids: seq<Id>, fates: nat -> Fate)
    ensures var t := All(emails, ids, fates);
            t.failed == |FailedAt(emails, ids, fates)| && t.failedIds == IdsAt(ids, FailedAt(emails, ids, fates))
  {
    if ids != [] {
      var n := |ids| - 1;
      var before := FailedAt(emails, ids[..n], fates);
      FailuresAre(emails, ids[..n], fates);
      FailedAtMore(emails, ids, fates);
      IdsAtInit(ids, before);
      IdsAtMore(ids, before, n);
      OneMorePlace(before, n);
      assert before + {} == before;
      OneMessage(All(emails, ids[..n], fates), ids[n], fates(n));
    }
  }

  /**
   A run whose listing breaks off stores nothing and keeps the cursor; one whose listing is complete
   handles each id listed, in order, and stores the cursor unless that fails.
   */
  lemma SyncIs(s: State, x: Script)
    ensures var l, t := ListingOf(s, x), Sync(s, x);
            if l.Broken? then t.emails == s.emails && t.cursor == s.cursor && t.failedEver == s.failedEver
            else
              var tally := All(s.emails, l.ids, x.fates);
              t.emails == tally.emails && t.failedEver == s.failedEver + tally.failedIds &&
              (x.updateFails ==> t.cursor == s.cursor)
  {
  }
}
