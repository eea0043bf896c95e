/**
 The claim script: resolve every parked mailbox, require a destination for what no mailbox
 accounts for, and run the one transaction statement by statement with its checks in between.
 */
module TransferScript {
  import opened Prelude
  import opened MailboxOwner
  import opened Transfer
  import opened TransferProof
  import opened TransferTheorem

  datatype RemainderPlan = NoRemainder | Operator(userId: nat, count: nat) | Undecidable

  datatype Outcome = Refused | RolledBack | Committed

  /** The records no mailbox pass reaches. */
  function UnreachableCount(t: Tables, legacy: nat): nat {
    |set e | e in t.events && t.events[e].owner == legacy| + |set u | u in t.updates && t.updates[u].owner == legacy|
    + |set e | e in t.emails && t.emails[e].owner == legacy && t.emails[e].account.None?|
  }

  /** Nothing is inferred: the operator's choice, or no answer. */
  function ResolveRemainderOwner(explicit: Option<nat>, unreachable: nat): RemainderPlan {
    if unreachable == 0 then NoRemainder
    else if explicit.Some? then Operator(explicit.value, unreachable)
    else Undecidable
  }

  function RemainderOf(plan: RemainderPlan): Option<nat> {
    if plan.Operator? then Some(plan.userId) else None
  }

  /** An active user that is not the placeholder; the candidates are every other user. */
  predicate ValidDestination(candidates: seq<User>, to: Option<nat>) {
    to.Some? ==> exists u | u in candidates :: u.id == to.value && IsEligibleOwner(u)
  }

  datatype Mapping = Mapping(mailbox: nat, resolution: Resolution)

  /** Every parked mailbox with what the resolver concluded. */
  function MapMailboxes(accounts: map<nat, Account>, mailboxes: seq<nat>, candidates: seq<User>): (r: seq<Mapping>)
    requires forall k | 0 <= k < |mailboxes| :: mailboxes[k] in accounts
    ensures |r| == |mailboxes|
  {
    seq(|mailboxes|, k requires 0 <= k < |mailboxes| =>
      Mapping(mailboxes[k], ResolveMailboxOwner(accounts[mailboxes[k]].email, candidates)))
  }

  predicate Resolvable(mappings: seq<Mapping>) {
    forall k | 0 <= k < |mappings| :: mappings[k].resolution.Mapped?
  }

  /** The mailboxes the resolver could attribute; the others are left out. */
  function AssignmentsOf(mappings: seq<Mapping>): seq<Assignment> {
    if mappings == [] then []
    else
      var rest, last := AssignmentsOf(mappings[..|mappings| - 1]), mappings[|mappings| - 1];
      if last.resolution.Mapped? then rest + [Assignment(last.mailbox, last.resolution.user.id)] else rest
  }

  /** The parked mailboxes, each once. */
  ghost predicate Parked(t: Tables, legacy: nat, mailboxes: seq<nat>) {
    && (forall j, k | 0 <= j < k < |mailboxes| :: mailboxes[j] != mailboxes[k])
    && (forall k | 0 <= k < |mailboxes| :: mailboxes[k] in t.accounts && t.accounts[mailboxes[k]].owner == legacy)
    && forall m | m in t.accounts && t.accounts[m].owner == legacy :: exists k | 0 <= k < |mailboxes| :: mailboxes[k] == m
  }

  lemma {:induction false} Listing(s: set<nat>) returns (list: seq<nat>)
    ensures forall j, k | 0 <= j < k < |list| :: list[j] != list[k]
    ensures forall m :: m in s <==> m in list
    decreases |s|
  {
    if s == {} {
      list := [];
    } else {
      var m :| m in s;
      var rest := Listing(s - {m});
      assert m !in rest;
      list := rest + [m];
    }
  }

  /** Whatever the tables hold, there is such a list of the parked mailboxes. */
  lemma ParkedList(t: Tables, legacy: nat) returns (mailboxes: seq<nat>)
    ensures Parked(t, legacy, mailboxes)
  {
    var parked := set m | m in t.accounts && t.accounts[m].owner == legacy;
    mailboxes := Listing(parked);
    forall k | 0 <= k < |mailboxes| ensures mailboxes[k] in parked {
      assert mailboxes[k] in mailboxes;
    }
    forall m | m in t.accounts && t.accounts[m].owner == legacy ensures exists k | 0 <= k < |mailboxes| :: mailboxes[k] == m {
      assert m in parked;
      assert m in mailboxes;
    }
  }

  // -------------------------------------------------------------------- the plan

  /** When every mailbox resolves, none is left out. */
  lemma {:induction false} AssignmentsAre(mappings: seq<Mapping>)
    requires Resolvable(mappings)
    ensures |AssignmentsOf(mappings)| == |mappings|
    ensures forall k | 0 <= k < |mappings| ::
              AssignmentsOf(mappings)[k] == Assignment(mappings[k].mailbox, mappings[k].resolution.user.id)
  {
    if mappings != [] {
      AssignmentsAre(mappings[..|mappings| - 1]);
    }
  }

  /** A mailbox goes to an eligible candidate of its own address, who is the only one. */
  lemma MappedToCandidate(accounts: map<nat, Account>, mailboxes: seq<nat>, candidates: seq<User>, k: nat)
    requires k < |mailboxes| && forall j | 0 <= j < |mailboxes| :: mailboxes[j] in accounts
    requires MapMailboxes(accounts, mailboxes, candidates)[k].resolution.Mapped?
    ensures var m := MapMailboxes(accounts, mailboxes, candidates)[k];
            m.mailbox == mailboxes[k] && m.resolution.user in candidates &&
            m.resolution.user.status == "active" && !m.resolution.user.deleted &&
            forall u :: u in candidates && MayOwn(accounts[mailboxes[k]].email, u) <==> u == m.resolution.user
  {
    ResolutionIs(accounts[mailboxes[k]].email, candidates);
  }

  lemma NothingUnreachable(t: Tables, legacy: nat)
    ensures UnreachableCount(t, legacy) == 0 <==> AllReachable(t, legacy)
  {
    var events, updates, mail := (set e | e in t.events && t.events[e].owner == legacy),
      (set u | u in t.updates && t.updates[u].owner == legacy),
      (set e | e in t.emails && t.emails[e].owner == legacy && t.emails[e].account.None?);
    assert UnreachableCount(t, legacy) == |events| + |updates| + |mail|;
    assert |events| == 0 <==> events == {};
    assert |updates| == 0 <==> updates == {};
    assert |mail| == 0 <==> mail == {};
    assert AllReachable(t, legacy) ==> events == {} && updates == {} && mail == {};
    if events == {} && updates == {} && mail == {} {
      forall e | e in t.events ensures t.events[e].owner != legacy { assert e !in events; }
      forall u | u in t.updates ensures t.updates[u].owner != legacy { assert u !in updates; }
      forall e | e in t.emails && t.emails[e].account.None? ensures t.emails[e].owner != legacy { assert e !in mail; }
    }
  }

  lemma AcceptedIsAssigned(t: Tables, legacy: nat, mailboxes: seq<nat>, mappings: seq<Mapping>)
    requires Parked(t, legacy, mailboxes) && Resolvable(mappings) && |mappings| == |mailboxes|
    requires forall k | 0 <= k < |mailboxes| ::
               mappings[k].mailbox == mailboxes[k] && mappings[k].resolution.user.id != legacy
    ensures Assigned(t, legacy, AssignmentsOf(mappings))
    ensures forall a | a in t.accounts && t.accounts[a].owner == legacy ::
              exists k | 0 <= k < |AssignmentsOf(mappings)| :: AssignmentsOf(mappings)[k].mailbox == a
  {
    var assignments := AssignmentsOf(mappings);
    AssignmentsAre(mappings);
    assert forall k | 0 <= k < |assignments| :: assignments[k].mailbox == mailboxes[k];
    forall a | a in t.accounts && t.accounts[a].owner == legacy
      ensures exists k | 0 <= k < |assignments| :: assignments[k].mailbox == a
    {
      var k :| 0 <= k < |mailboxes| && mailboxes[k] == a;
      assert assignments[k].mailbox == a;
    }
  }

  /** A plan the script accepts is complete. */
  lemma AcceptedIsComplete(t: Tables, legacy: nat, mailboxes: seq<nat>, candidates: seq<User>, to: Option<nat>)
    requires Parked(t, legacy, mailboxes) && forall u | u in candidates :: u.id != legacy
    requires ValidDestination(candidates, to) && Resolvable(MapMailboxes(t.accounts, mailboxes, candidates))
    requires !AllReachable(t, legacy) ==> to.Some?
    ensures Complete(t, legacy, AssignmentsOf(MapMailboxes(t.accounts, mailboxes, candidates)),
                     if AllReachable(t, legacy) then None else to)
  {
    var mappings := MapMailboxes(t.accounts, mailboxes, candidates);
    forall k | 0 <= k < |mailboxes|
      ensures mappings[k].mailbox == mailboxes[k] && mappings[k].resolution.user.id != legacy
    {
      MappedToCandidate(t.accounts, mailboxes, candidates, k);
    }
    AcceptedIsAssigned(t, legacy, mailboxes, mappings);
  }

  /** One candidate may own the mailbox. */
  ghost predicate HasOneOwner(accounts: map<nat, Account>, m: nat, candidates: seq<User>) {
    m in accounts && exists i: int :: OneOwner(accounts[m].email, candidates, i)
  }

  /** The mailbox ends with the one candidate who may own it, and is otherwise as it was. */
  ghost predicate GoesToOneOwner(before: map<nat, Account>, after: map<nat, Account>, m: nat, candidates: seq<User>) {
    m in before && m in after &&
    exists i: int :: OneOwner(before[m].email, candidates, i) && after[m] == before[m].(owner := candidates[i].id)
  }

  lemma ResolvableIff(accounts: map<nat, Account>, mailboxes: seq<nat>, candidates: seq<User>)
    requires forall k | 0 <= k < |mailboxes| :: mailboxes[k] in accounts
    ensures Resolvable(MapMailboxes(accounts, mailboxes, candidates)) <==>
              forall k | 0 <= k < |mailboxes| :: HasOneOwner(accounts, mailboxes[k], candidates)
  {
    var mappings := MapMailboxes(accounts, mailboxes, candidates);
    forall k | 0 <= k < |mailboxes|
      ensures mappings[k].resolution.Mapped? <==> HasOneOwner(accounts, mailboxes[k], candidates)
    {
      MappedIff(accounts[mailboxes[k]].email, candidates);
    }
  }

  /** Where the assignments send the parked mailboxes. */
  lemma OwnersEnd(t: Tables, legacy: nat, mailboxes: seq<nat>, candidates: seq<User>, remainder: Option<nat>)
    requires Parked(t, legacy, mailboxes) && Resolvable(MapMailboxes(t.accounts, mailboxes, candidates))
    requires Complete(t, legacy, AssignmentsOf(MapMailboxes(t.accounts, mailboxes, candidates)), remainder)
    ensures var f := Final(t, legacy, AssignmentsOf(MapMailboxes(t.accounts, mailboxes, candidates)), remainder);
            forall k | 0 <= k < |mailboxes| :: GoesToOneOwner(t.accounts, f.accounts, mailboxes[k], candidates)
  {
    var mappings := MapMailboxes(t.accounts, mailboxes, candidates);
    var assignments := AssignmentsOf(mappings);
    var f := Final(t, legacy, assignments, remainder);
    MailboxesAreExact(t, legacy, assignments, remainder);
    AssignmentsAre(mappings);
    DestIs(t, legacy, assignments);
    forall k | 0 <= k < |mailboxes| ensures GoesToOneOwner(t.accounts, f.accounts, mailboxes[k], candidates) {
      MappedIff(t.accounts[mailboxes[k]].email, candidates);
      assert mappings[k].resolution.Mapped?;
      var i: int :| OneOwner(t.accounts[mailboxes[k]].email, candidates, i);
      assert assignments[k] == Assignment(mailboxes[k], candidates[i].id);
    }
  }

  // -------------------------------------------------------------------- the run

  class Claim {
    var t: Tables

    constructor (t: Tables)
      ensures this.t == t
    {
      this.t := t;
    }

    /** Statements in order; the first one refused stops them. */
    method RunStatements(legacy: nat, sts: seq<Statement>) returns (ok: bool)
      modifies this
      ensures ok <==> RunAll(old(t), legacy, sts).Some?
      ensures ok ==> RunAll(old(t), legacy, sts) == Some(t)
    {
      var i := 0;
      while i < |sts|
        invariant 0 <= i <= |sts|
        invariant RunAll(old(t), legacy, sts[..i]) == Some(t)
      {
        assert sts[..i + 1] == sts[..i] + [sts[i]];
        RunAllAppend(old(t), legacy, sts[..i], sts[i]);
        var next := Run(t, legacy, sts[i]);
        if next.None? {
          StaysRefused(old(t), legacy, sts, i + 1);
          return false;
        }
        t := next.value;
        i := i + 1;
      }
      assert sts[..i] == sts;
      return true;
    }

    /** Every mailbox row against the resolver's answer, after the event. */
    method VerifyMailboxOwnershipMatchesResolver(assignments: seq<Assignment>) returns (ok: bool)
      ensures ok <==> OwnersMatch(t, assignments)
    {
      var mismatched: seq<Assignment> := [];
      var i := 0;
      while i < |assignments|
        invariant 0 <= i <= |assignments|
        invariant mismatched == [] <==> OwnersMatch(t, assignments[..i])
      {
        var a := assignments[i];
        if a.mailbox !in t.accounts || t.accounts[a.mailbox].owner != a.owner {
          mismatched := mismatched + [a];
        }
        assert assignments[..i + 1][i] == a && forall k | 0 <= k < i :: assignments[..i + 1][k] == assignments[..i][k];
        i := i + 1;
      }
      assert assignments[..i] == assignments;
      ok := mismatched == [];
    }

    /** The pass over the assignments: three statements and a check for each, until one fails. */
    method MoveMailboxes(legacy: nat, assignments: seq<Assignment>) returns (ok: bool)
      modifies this
      ensures ok <==> TransferMailboxes(old(t), legacy, assignments).Some?
      ensures ok ==> TransferMailboxes(old(t), legacy, assignments) == Some(t)
    {
      var i := 0;
      while i < |assignments|
        invariant 0 <= i <= |assignments|
        invariant TransferMailboxes(old(t), legacy, assignments[..i]) == Some(t)
      {
        var a := assignments[i];
        assert assignments[..i + 1][..i] == assignments[..i];
        var moved := RunStatements(legacy, MailboxStatements(a));
        if !moved || !MailboxTransferred(t, a) {
          MailboxStops(old(t), legacy, assignments, i + 1);
          return false;
        }
        i := i + 1;
      }
      assert assignments[..i] == assignments;
      return true;
    }

    /**
     The transaction. It commits what the model of the transfer commits, or restores what was
     there before the first statement.
     */
    method ExecuteTransfer(legacy: nat, assignments: seq<Assignment>, remainder: Option<nat>) returns (committed: bool)
      modifies this
      ensures committed <==> Execute(old(t), legacy, assignments, remainder).Some?
      ensures committed ==> Execute(old(t), legacy, assignments, remainder) == Some(t)
      ensures !committed ==> t == old(t)
    {
      var start := t;
      var moved := MoveMailboxes(legacy, assignments);
      if !moved {
        t := start;
        return false;
      }
      var mailboxes := t;
      var snapshot := SnapshotRemainder(t, legacy);
      if remainder.Some? {
        var ok := RunStatements(legacy, RemainderStatements(remainder.value));
        if !ok {
          t := start;
          return false;
        }
      }
      assert TransferRemainder(mailboxes, legacy, remainder) == Some(t);
      if !Released(t, legacy) {
        t := start;
        return false;
      }
      var reached := t;
      var k := 0;
      while k < |assignments|
        invariant 0 <= k <= |assignments| && t == reached
        invariant forall j | 0 <= j < k :: MailboxTransferred(t, assignments[j])
      {
        if !MailboxTransferred(t, assignments[k]) {
          t := start;
          return false;
        }
        k := k + 1;
      }
      var matches := VerifyMailboxOwnershipMatchesResolver(assignments);
      if !matches || (remainder.Some? && !RemainderTransferred(t, snapshot, remainder.value)) || !OwnershipConsistent(t) {
        t := start;
        return false;
      }
      return true;
    }

    /**
     The whole command under `--apply`. It refuses, changing nothing, when a mailbox has no single
     eligible owner, the destination is not one, or one is needed and none is given; it rolls back
     exactly when the destination already holds one of the placeholder's event keys; otherwise it
     commits the final state.
     */
    method Apply(legacy: nat, mailboxes: seq<nat>, candidates: seq<User>, to: Option<nat>) returns (outcome: Outcome)
      requires Consistent(t) && Parked(t, legacy, mailboxes) && forall u | u in candidates :: u.id != legacy
      modifies this
      ensures outcome.Refused? <==>
                || (exists k | 0 <= k < |mailboxes| :: !HasOneOwner(old(t).accounts, mailboxes[k], candidates))
                || (to.Some? && !exists u | u in candidates :: u.id == to.value && u.status == "active" && !u.deleted)
                || (!AllReachable(old(t), legacy) && to.None?)
      ensures outcome.RolledBack? <==>
                !outcome.Refused? && !AllReachable(old(t), legacy) && Clash(old(t).events, legacy, to.value)
      ensures outcome.Committed? ==>
                t == Final(old(t), legacy, AssignmentsOf(MapMailboxes(old(t).accounts, mailboxes, candidates)),
                           if AllReachable(old(t), legacy) then None else to)
      ensures outcome.Committed? ==>
                forall k | 0 <= k < |mailboxes| :: GoesToOneOwner(old(t).accounts, t.accounts, mailboxes[k], candidates)
      ensures !outcome.Committed? ==> t == old(t)
    {
      NothingUnreachable(t, legacy);
      ghost var start := t;
      ResolvableIff(t.accounts, mailboxes, candidates);
      var mappings := MapMailboxes(t.accounts, mailboxes, candidates);
      if !Resolvable(mappings) || !ValidDestination(candidates, to) {
        return Refused;
      }
      var plan := ResolveRemainderOwner(to, UnreachableCount(t, legacy));
      if plan.Undecidable? {
        return Refused;
      }
      AcceptedIsComplete(t, legacy, mailboxes, candidates, to);
      var assignments, remainder := AssignmentsOf(mappings), RemainderOf(plan);
      CommitsIff(t, legacy, assignments, remainder);
      var ok := ExecuteTransfer(legacy, assignments, remainder);
      OwnersEnd(start, legacy, mailboxes, candidates, remainder);
      return if ok then Committed else RolledBack;
    }
  }

  lemma {:induction false} StaysRefused(t: Tables, legacy: nat, sts: seq<Statement>, n: nat)
    requires n <= |sts| && RunAll(t, legacy, sts[..n]).None?
    ensures RunAll(t, legacy, sts).None?
    decreases |sts| - n
  {
    if n < |sts| {
      assert sts[..n + 1] == sts[..n] + [sts[n]];
      RunAllAppend(t, legacy, sts[..n], sts[n]);
      StaysRefused(t, legacy, sts, n + 1);
    } else {
      assert sts[..n] == sts;
    }
  }

  lemma {:induction false} MailboxStops(t: Tables, legacy: nat, assignments: seq<Assignment>, n: nat)
    requires n <= |assignments| && TransferMailboxes(t, legacy, assignments[..n]).None?
    ensures TransferMailboxes(t, legacy, assignments).None?
    decreases |assignments| - n
  {
    if n < |assignments| {
      assert assignments[..n + 1][..n] == assignments[..n];
      MailboxStops(t, legacy, assignments, n + 1);
    } else {
      assert assignments[..n] == assignments;
    }
  }
}
