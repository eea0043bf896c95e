/**
 The sync service as it runs: the two paginated loops over a mailbox that grows meanwhile, the
 message loop with its counters, and the run that writes the cursor last.
 */
module MailboxSync {
  import opened Prelude
  import opened Mailbox
  import opened MailboxFaith
  import opened MailboxCursor

  datatype Stats = Stats(processed: nat, duplicates: nat, queued: nat, failed: nat)

  datatype SyncMessageResult = Duplicate | Created | Threw

  datatype Result = Synced(incremental: bool, totalFetched: nat, stats: Stats, latestHistoryId: nat) | SyncFailed

  lemma AllAppend(emails: seq<Id>, ids: seq<Id>, id: Id, fates: nat -> Fate)
    ensures All(emails, ids + [id], fates) == One(All(emails, ids, fates), id, fates(|ids|))
  {
    assert (ids + [id])[..|ids|] == ids;
  }

  function StatsOf(emails: seq<Id>, ids: seq<Id>, fates: nat -> Fate): Stats {
    var t := All(emails, ids, fates);
    Stats(t.processed, t.duplicates, t.queued, t.failed)
  }

  lemma PageDownLatest(p: Progress, latest: nat, page: Reply)
    requires page.Page? && p.pos <= |p.log|
    ensures PageDown(p.(latest := latest), page) == PageDown(p, page).(latest := latest)
  {
  }

  /** The watermark takes no part in the listing but is reported with it. */
  lemma {:induction false} RecentLatest(p: Progress, latest: nat, top: nat, replies: seq<Reply>)
    requires p.pos <= |p.log|
    ensures var r, q := RecentWalk(p, top, replies), RecentWalk(p.(latest := latest), top, replies);
            q == if r.Listed? then r.(latest := latest) else r
    decreases |replies|
  {
    if replies != [] && replies[0].Page? {
      PageDownLatest(p, latest, replies[0]);
      RecentLatest(PageDown(p, replies[0]), latest, top, replies[1..]);
    }
  }

  class Service {
    /** The provider's mailbox. */
    var log: seq<Id>
    /** The email table, by message id. */
    var emails: seq<Id>
    /** The account's stored cursor. */
    var cursor: Option<nat>
    /** Every id some run counted as failed. */
    ghost var failedEver: set<Id>

    ghost function View(): State
      reads this
    {
      State(log, emails, cursor, failedEver)
    }

    constructor (log: seq<Id>)
      ensures View() == State(log, [], None, {})
    {
      this.log, emails, cursor, failedEver := log, [], None, {};
    }

    /** Every page of the mailbox, newest first. A rejected page rejects the listing. */
    method GetRecentMessages(replies: seq<Reply>) returns (ids: Option<seq<Id>>)
      modifies `log
      ensures var r := RecentWalk(Progress(old(log), |old(log)|, [], 0), |old(log)|, replies);
              log == r.log && ids == if r.Listed? then Some(r.ids) else None
    {
      var p := Progress(log, |log|, [], 0);
      ghost var top := |log|;
      ghost var whole := RecentWalk(p, top, replies);
      var i := 0;
      while true
        invariant 0 <= i <= |replies| && p.pos <= |p.log|
        invariant log == p.log && whole == RecentWalk(p, top, replies[i..])
        decreases |replies| - i
      {
        if i == |replies| {
          return None;
        }
        var reply := replies[i];
        assert replies[i..][0] == reply && replies[i..][1..] == replies[i + 1..];
        if reply.Rejected? {
          log := Arrive(log, reply.arrivals);
          return None;
        }
        p := PageDown(p, reply);
        log := p.log;
        i := i + 1;
        if !reply.more {
          break;
        }
      }
      return Some(p.ids);
    }

    /** Everything since a cursor, each id once, and the history id of the last page. */
    method GetHistoryChanges(start: nat, replies: seq<Reply>) returns (ids: seq<Id>, latest: nat, ok: bool, expired: bool)
      requires start <= |log|
      modifies `log
      ensures var r := HistoryWalk(Progress(old(log), start, [], start), start, replies);
              log == r.log && (ok <==> r.Listed?) &&
              if r.Listed? then ids == r.ids && latest == r.latest else expired == r.expired
    {
      var p := Progress(log, start, [], start);
      ghost var whole := HistoryWalk(p, start, replies);
      ids, latest, ok, expired := [], start, false, false;
      var i := 0;
      while true
        invariant 0 <= i <= |replies| && start <= p.pos <= |p.log|
        invariant log == p.log && latest == p.latest && whole == HistoryWalk(p, start, replies[i..]) && !ok && !expired
        decreases |replies| - i
      {
        if i == |replies| {
          return;
        }
        var reply := replies[i];
        assert replies[i..][0] == reply && replies[i..][1..] == replies[i + 1..];
        if reply.Rejected? {
          log := Arrive(log, reply.arrivals);
          expired := reply.expired;
          return;
        }
        p := PageUp(p, start, reply);
        log := p.log;
        if reply.historyId.Some? {
          latest := reply.historyId.value;
        }
        i := i + 1;
        if !reply.more {
          break;
        }
      }
      ids, ok := p.ids, true;
    }

    /** Fetch, skip what is stored, store, enqueue. An id already in the table is never stored again. */
    method SyncSingleMessage(id: Id, fate: Fate) returns (result: SyncMessageResult)
      modifies `emails
      ensures result == if fate.FetchFails? then Threw else if id in old(emails) then Duplicate
                        else if fate.Fine? then Created else Threw
      ensures emails == if fate.FetchFails? || fate.CreateFails? || id in old(emails) then old(emails) else old(emails) + [id]
    {
      if fate.FetchFails? {
        return Threw;
      }
      if id in emails {
        return Duplicate;
      }
      if fate.CreateFails? {
        return Threw;
      }
      emails := emails + [id];
      return if fate.EnqueueFails? then Threw else Created;
    }

    /** One message's failure is counted and the rest go on. */
    method ProcessMessages(ids: seq<Id>, fates: nat -> Fate) returns (stats: Stats)
      modifies `emails, `failedEver
      ensures var t := All(old(emails), ids, fates);
              emails == t.emails && failedEver == old(failedEver) + t.failedIds &&
              stats == Stats(t.processed, t.duplicates, t.queued, t.failed)
    {
      var processed, duplicates, queued, failed := 0, 0, 0, 0;
      ghost var failedIds: set<Id> := {};
      var i := 0;
      while i < |ids|
        invariant 0 <= i <= |ids| && failedEver == old(failedEver)
        invariant Tally(emails, processed, duplicates, queued, failed, failedIds) == All(old(emails), ids[..i], fates)
      {
        assert ids[..i + 1] == ids[..i] + [ids[i]];
        AllAppend(old(emails), ids[..i], ids[i], fates);
        var result := SyncSingleMessage(ids[i], fates(i));
        if result.Duplicate? {
          duplicates := duplicates + 1;
        } else if result.Created? {
          processed := processed + 1;
          queued := queued + 1;
        } else {
          failed := failed + 1;
          failedIds := failedIds + {ids[i]};
        }
        i := i + 1;
      }
      assert ids[..i] == ids;
      failedEver := failedEver + failedIds;
      stats := Stats(processed, duplicates, queued, failed);
    }

    /** The watermark is taken before the mailbox is listed. The cursor is left to the caller. */
    method RunFullSync(x: Script) returns (result: Result)
      modifies this
      ensures cursor == old(cursor)
      ensures var l := FullListing(old(View()), x);
              if l.Broken? then result == SyncFailed && View() == old(View()).(log := l.log)
              else
                var t := All(old(emails), l.ids, x.fates);
                result == Synced(false, |l.ids|, StatsOf(old(emails), l.ids, x.fates), l.latest) &&
                View() == State(Arrive(l.log, x.after), t.emails, old(cursor), old(failedEver) + t.failedIds)
    {
      if x.profile.None? {
        return SyncFailed;
      }
      var latestHistoryId := x.profile.value;
      log := Arrive(log, x.between);
      RecentLatest(Progress(log, |log|, [], 0), latestHistoryId, |log|, x.recent);
      RecentCovers(Progress(log, |log|, [], latestHistoryId), |log|, x.recent);
      var messages := GetRecentMessages(x.recent);
      if messages.None? {
        return SyncFailed;
      }
      var stats := ProcessMessages(messages.value, x.fates);
      log := Arrive(log, x.after);
      return Synced(false, |messages.value|, stats, latestHistoryId);
    }

    /**
     One run for the account. It does to mailbox, table and cursor what the model's run does; it keeps
     everything below the cursor accounted for exactly when it has no blind spot; and the cursor moves
     only after a complete listing was processed, to the id that listing reported.
     */
    method SyncGmailAccount(x: Script) returns (result: Result)
      requires Inv(View())
      modifies this
      ensures View() == Sync(old(View()), x)
      ensures Inv(View()) <==> NoBlindSpot(old(View()), x)
      ensures ListingOf(old(View()), x).Listed? <==> Succeeds(old(View()), x)
      ensures result.Synced? <==> Succeeds(old(View()), x) && !x.updateFails
      ensures result.Synced? ==>
                cursor == Some(result.latestHistoryId) && CursorFor(old(View()), x, result.latestHistoryId) &&
                result.incremental == Incremental(old(View()), x) &&
                result.totalFetched == |ListingOf(old(View()), x).ids| &&
                result.stats.processed + result.stats.duplicates + result.stats.failed == result.totalFetched
      ensures result.SyncFailed? ==> cursor == old(cursor)
    {
      SyncKeepsIff(View(), x);
      ghost var before := View();
      ghost var listing := ListingOf(View(), x);
      AllAccounts(emails, if listing.Listed? then listing.ids else [], x.fates);
      SucceedsIff(before, x);
      if before.cursor.Some? && before.cursor.value <= |Arrive(before.log, x.before)| {
        IncrementalListing(before, x);
      }
      log := Arrive(log, x.before);
      if cursor.None? || cursor.value > |log| {
        result := RunFullSync(x);
      } else {
        var ids, latest, ok, expired := GetHistoryChanges(cursor.value, x.history);
        if ok {
          var stats := ProcessMessages(ids, x.fates);
          log := Arrive(log, x.after);
          result := Synced(true, |ids|, stats, latest);
        } else if expired {
          result := RunFullSync(x);
        } else {
          return SyncFailed;
        }
      }
      if result.SyncFailed? || x.updateFails {
        return SyncFailed;
      }
      cursor := Some(result.latestHistoryId);
      ListingIs(before, x);
    }
  }
}
