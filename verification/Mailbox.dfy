/**
 The mailbox cursor. A mailbox is an append-only log of message ids, a history id a position in
 it. Messages arrive between any two requests; a listing is answered page by page, each answer
 computed when its request is made. Page sizes, repetitions, failures, where a listing ends and
 which history id it reports are the outside world's choice; nothing says that the id reported and
 the messages listed fit together.
 */
module Mailbox {
  import opened Prelude

  /** A message id, of which only equality matters. */
  type Id = nat

  /** One answer of the provider to a page request, and what arrived before it. */
  datatype Reply =
    | Page(arrivals: seq<Id>, back: nat, size: nat, more: bool, historyId: Option<nat>)
    | Rejected(arrivals: seq<Id>, expired: bool)

  /** A later state of a log: longer, with the same start, and still without repetition. */
  ghost predicate Extends(log: seq<Id>, later: seq<Id>) {
    && |log| <= |later| && (forall i | 0 <= i < |log| :: later[i] == log[i])
    && (Distinct(log) ==> Distinct(later))
  }

  /** New ids join the log once each. */
  function Arrive(log: seq<Id>, arrivals: seq<Id>): (r: seq<Id>)
    ensures Extends(log, r)
  {
    if arrivals == [] then log
    else
      var before := Arrive(log, arrivals[..|arrivals| - 1]);
      if arrivals[|arrivals| - 1] in before then before else before + [arrivals[|arrivals| - 1]]
  }

  ghost predicate Distinct(s: seq<Id>) {
    forall i, j | 0 <= i < j < |s| :: s[i] != s[j]
  }

  function Min(a: nat, b: nat): nat {
    if a < b then a else b
  }

  // ------------------------------------------------------------------- listings

  /** A complete listing names the messages from `from` up to `upTo`, and reports a history id. */
  datatype Listing =
    | Listed(log: seq<Id>, ids: seq<Id>, latest: nat, from: nat, upTo: nat)
    | Broken(log: seq<Id>, expired: bool)

  /** The ids of a page joining a set, in insertion order. */
  function Joined(ids: seq<Id>, page: seq<Id>): seq<Id> {
    if page == [] then ids
    else
      var before := Joined(ids, page[..|page| - 1]);
      if page[|page| - 1] in before then before else before + [page[|page| - 1]]
  }

  /** Where a listing has come: the log as it is now, the position reached, the ids so far, the last history id reported. */
  datatype Progress = Progress(log: seq<Id>, pos: nat, ids: seq<Id>, latest: nat)

  /** One page upwards, from the log as it is at that request, perhaps repeating some of the walk. */
  function PageUp(p: Progress, start: nat, page: Reply): (r: Progress)
    requires page.Page? && start <= p.pos <= |p.log|
    ensures start <= r.pos <= |r.log|
  {
    var now := Arrive(p.log, page.arrivals);
    var from, to := p.pos - Min(page.back, p.pos - start), p.pos + Min(page.size, |now| - p.pos);
    Progress(now, to, Joined(p.ids, now[from..to]), page.historyId.GetOr(p.latest))
  }

  /** One page downwards. */
  function PageDown(p: Progress, page: Reply): (r: Progress)
    requires page.Page? && p.pos <= |p.log|
    ensures r.pos <= |r.log| && r.latest == p.latest
  {
    var now := Arrive(p.log, page.arrivals);
    var from, to := p.pos - Min(page.size, p.pos), p.pos + Min(page.back, |now| - p.pos);
    Progress(now, from, p.ids + now[from..to], p.latest)
  }

  /** The history walk: pages in ascending order from `start` until one has no successor; the last history id reported counts. */
  function HistoryWalk(p: Progress, start: nat, replies: seq<Reply>): Listing
    requires start <= p.pos <= |p.log|
    decreases |replies|
  {
    if replies == [] then Broken(p.log, false)
    else if replies[0].Rejected? then Broken(Arrive(p.log, replies[0].arrivals), replies[0].expired)
    else
      var q := PageUp(p, start, replies[0]);
      if replies[0].more then HistoryWalk(q, start, replies[1..]) else Listed(q.log, q.ids, q.latest, start, q.pos)
  }

  /** The full listing: pages from newest to oldest, anchored at `top`, where the mailbox stood when it began. */
  function RecentWalk(p: Progress, top: nat, replies: seq<Reply>): Listing
    requires p.pos <= |p.log|
    decreases |replies|
  {
    if replies == [] then Broken(p.log, false)
    else if replies[0].Rejected? then Broken(Arrive(p.log, replies[0].arrivals), replies[0].expired)
    else
      var q := PageDown(p, replies[0]);
      if replies[0].more then RecentWalk(q, top, replies[1..]) else Listed(q.log, q.ids, q.latest, q.pos, top)
  }

  // -------------------------------------------------------------------- messages

  datatype Fate = FetchFails | CreateFails | EnqueueFails | Fine

  /** The emails stored, the counters, and the ids counted as failed. */
  datatype Tally = Tally(emails: seq<Id>, processed: nat, duplicates: nat, queued: nat, failed: nat, failedIds: set<Id>)

  function One(t: Tally, id: Id, fate: Fate): Tally {
    if fate.FetchFails? then t.(failed := t.failed + 1, failedIds := t.failedIds + {id})
    else if id in t.emails then t.(duplicates := t.duplicates + 1)
    else if fate.CreateFails? then t.(failed := t.failed + 1, failedIds := t.failedIds + {id})
    else if fate.EnqueueFails? then t.(emails := t.emails + [id], failed := t.failed + 1, failedIds := t.failedIds + {id})
    else t.(emails := t.emails + [id], processed := t.processed + 1, queued := t.queued + 1)
  }

  function All(emails: seq<Id>, ids: seq<Id>, fates: nat -> Fate): Tally {
    if ids == [] then Tally(emails, 0, 0, 0, 0, {})
    else One(All(emails, ids[..|ids| - 1], fates), ids[|ids| - 1], fates(|ids| - 1))
  }

  // ------------------------------------------------------------------------ a run

  /** The mailbox, the email table, the stored cursor, and every id some run counted as failed. */
  datatype State = State(log: seq<Id>, emails: seq<Id>, cursor: Option<nat>, failedEver: set<Id>)

  /** What the outside world does during one run. */
  datatype Script = Script(before: seq<Id>, profile: Option<nat>, between: seq<Id>, history: seq<Reply>, recent: seq<Reply>,
                           fates: nat -> Fate, after: seq<Id>, updateFails: bool)

  /** The full listing, with the watermark the profile reported before it. */
  function FullListing(s: State, x: Script): Listing {
    if x.profile.None? then Broken(s.log, false)
    else
      var log := Arrive(s.log, x.between);
      RecentWalk(Progress(log, |log|, [], x.profile.value), |log|, x.recent)
  }

  /** The listing of a run: incremental from the cursor, or full without one and when it has expired. */
  function ListingOf(state: State, x: Script): Listing {
    var s := state.(log := Arrive(state.log, x.before));
    if s.cursor.None? || s.cursor.value > |s.log| then FullListing(s, x)
    else
      var c := s.cursor.value;
      var listing := HistoryWalk(Progress(s.log, c, [], c), c, x.history);
      if listing.Broken? && listing.expired then FullListing(s.(log := listing.log), x) else listing
  }

  /** One run: list, process, and only then store the cursor. A broken listing changes nothing. */
  function Sync(s: State, x: Script): State {
    var listing := ListingOf(s, x);
    if listing.Broken? then s.(log := listing.log)
    else
      var t := All(s.emails, listing.ids, x.fates);
      State(Arrive(listing.log, x.after), t.emails, if x.updateFails then s.cursor else Some(listing.latest),
            s.failedEver + t.failedIds)
  }

  /** The state before run `k`. */
  function StateAt(s: State, runs: seq<Script>, k: nat): State
    requires k <= |runs|
  {
    if k == 0 then s else Sync(StateAt(s, runs, k - 1), runs[k - 1])
  }
}
