/** The operator pass, the checks, and when a transfer commits. */
module TransferTheorem {
  import opened Prelude
  import opened Transfer
  import opened TransferProof

  // --------------------------------------------------------------- the operator pass

  lemma MailGoes(emails: map<nat, Email>, legacy: nat, dest: map<nat, nat>, owner: nat)
    ensures MovedEmails(EmailsGo(emails, legacy, dest, None), legacy, owner, None) == EmailsGo(emails, legacy, dest, Some(owner))
  {
  }

  lemma MailCarriesAll(t: Tables, legacy: nat, dest: map<nat, nat>, owner: nat)
    requires Consistent(t)
    ensures WithEmails(Reached(t, legacy, dest, None, None), EmailsGo(t.emails, legacy, dest, Some(owner))) ==
              Reached(t, legacy, dest, Some(owner), None)
  {
    ReachedConsistent(t, legacy, dest, None, None);
    Descend(t, Reached(t, legacy, dest, None, None), EmailsGo(t.emails, legacy, dest, Some(owner)));
  }

  lemma MailMoves(t: Tables, legacy: nat, dest: map<nat, nat>, owner: nat)
    requires Consistent(t)
    ensures Run(Reached(t, legacy, dest, None, None), legacy, MoveEmails(owner, None)) ==
              Some(Reached(t, legacy, dest, Some(owner), None))
  {
    MailGoes(t.emails, legacy, dest, owner);
    ReachedEmailsAgree(t, legacy, dest, Some(owner));
    MailCarriesAll(t, legacy, dest, owner);
  }

  lemma MailCleared(emails: map<nat, Email>, legacy: nat, dest: map<nat, nat>, owner: nat)
    requires owner != legacy
    ensures var gone := EmailsGo(emails, legacy, dest, Some(owner));
            forall e | e in gone && gone[e].account == None :: gone[e].owner != legacy
  {
  }

  /** The destination already has an event under a key the placeholder holds. */
  ghost predicate Clash(events: map<nat, Event>, legacy: nat, owner: nat) {
    exists i, j | i in events && j in events ::
      events[i].owner == legacy && events[j].owner == owner && events[i].key == events[j].key
  }

  /** The unique key refuses the move of events exactly on a clash. */
  lemma MoveRefusedIff(events: map<nat, Event>, legacy: nat, owner: nat)
    requires KeysUnique(events) && owner != legacy
    ensures KeysUnique(MovedEvents(events, legacy, owner)) <==> !Clash(events, legacy, owner)
  {
    var moved := MovedEvents(events, legacy, owner);
    if Clash(events, legacy, owner) {
      var i, j :| i in events && j in events &&
        events[i].owner == legacy && events[j].owner == owner && events[i].key == events[j].key;
      assert moved[i] == moved[j];
    } else {
      forall i, j | i in moved && j in moved && moved[i] == moved[j] ensures i == j {
        assert i in events && j in events;
      }
    }
  }

  lemma EventsMove(t: Tables, legacy: nat, dest: map<nat, nat>, mail: Option<nat>, owner: nat)
    requires Consistent(t)
    ensures Run(Reached(t, legacy, dest, mail, None), legacy, MoveEvents(owner)) ==
              if KeysUnique(MovedEvents(t.events, legacy, owner)) then Some(Reached(t, legacy, dest, mail, Some(owner))) else None
  {
    var s, moved := Reached(t, legacy, dest, mail, None), MovedEvents(t.events, legacy, owner);
    assert EventOwners(t.events).Keys == t.events.Keys && EventOwners(moved).Keys == moved.Keys;
    AdoptedAgree(t.updates, EventOwners(t.events), EventOwners(t.events));
    AdoptedAgree(t.updates, EventOwners(t.events), EventOwners(moved));
  }

  lemma NoUpdateMoves(s: Tables, legacy: nat, to: nat)
    requires Agree(s.updates, EventOwners(s.events)) && forall e | e in s.events :: s.events[e].owner != legacy
    ensures Run(s, legacy, MoveUpdates(to)) == Some(s)
  {
    forall u | u in s.updates ensures s.updates[u].owner != legacy {
      assert EventOwners(s.events)[s.updates[u].parent] == s.updates[u].owner;
    }
    assert MovedUpdates(s.updates, legacy, to) == s.updates;
  }

  lemma EventsCleared(events: map<nat, Event>, legacy: nat, owner: nat)
    requires owner != legacy
    ensures forall e | e in MovedEvents(events, legacy, owner) :: MovedEvents(events, legacy, owner)[e].owner != legacy
  {
  }

  /** The operator pass reaches its state, or fails at the events and nowhere else. */
  lemma RemainderMoves(t: Tables, legacy: nat, dest: map<nat, nat>, owner: nat)
    requires Consistent(t) && owner != legacy
    ensures RunAll(Reached(t, legacy, dest, None, None), legacy, RemainderStatements(owner)) ==
              if Clash(t.events, legacy, owner) then None else Some(Reached(t, legacy, dest, Some(owner), Some(owner)))
  {
    var s, m := Reached(t, legacy, dest, None, None), Reached(t, legacy, dest, Some(owner), None);
    var mail, moved := [MoveEmails(owner, None)], [MoveExtractions(owner, None), MoveAttachments(owner, None)];
    RunOne(s, legacy, MoveEmails(owner, None));
    MailMoves(t, legacy, dest, owner);
    ReachedConsistent(t, legacy, dest, Some(owner), None);
    MailCleared(t.emails, legacy, dest, owner);
    ChildrenAreCaught(s, legacy, mail, m, owner, None);
    LastTwo(t, s, legacy, dest, owner, mail + moved);
    assert RemainderStatements(owner) == mail + moved + [MoveEvents(owner)] + [MoveUpdates(owner)];
  }

  lemma LastTwo(t: Tables, s: Tables, legacy: nat, dest: map<nat, nat>, owner: nat, sts: seq<Statement>)
    requires Consistent(t) && owner != legacy && RunAll(s, legacy, sts) == Some(Reached(t, legacy, dest, Some(owner), None))
    ensures RunAll(s, legacy, sts + [MoveEvents(owner)] + [MoveUpdates(owner)]) ==
              if Clash(t.events, legacy, owner) then None else Some(Reached(t, legacy, dest, Some(owner), Some(owner)))
  {
    RunAllAppend(s, legacy, sts, MoveEvents(owner));
    EventsMove(t, legacy, dest, Some(owner), owner);
    MoveRefusedIff(t.events, legacy, owner);
    RunAllAppend(s, legacy, sts + [MoveEvents(owner)], MoveUpdates(owner));
    if !Clash(t.events, legacy, owner) {
      ReachedConsistent(t, legacy, dest, Some(owner), Some(owner));
      EventsCleared(t.events, legacy, owner);
      NoUpdateMoves(Reached(t, legacy, dest, Some(owner), Some(owner)), legacy, owner);
    }
  }

  // ----------------------------------------------------------------------- the plan

  /** Nothing of the placeholder's is beyond the reach of its mailboxes. */
  ghost predicate AllReachable(t: Tables, legacy: nat) {
    && (forall e | e in t.events :: t.events[e].owner != legacy)
    && (forall u | u in t.updates :: t.updates[u].owner != legacy)
    && (forall e | e in t.emails && t.emails[e].account.None? :: t.emails[e].owner != legacy)
  }

  /** Every parked mailbox is assigned, and what none of them reaches has a destination. */
  ghost predicate Complete(t: Tables, legacy: nat, assignments: seq<Assignment>, remainder: Option<nat>) {
    && Assigned(t, legacy, assignments)
    && (forall a | a in t.accounts && t.accounts[a].owner == legacy ::
          exists k | 0 <= k < |assignments| :: assignments[k].mailbox == a)
    && (if remainder.Some? then remainder.value != legacy else AllReachable(t, legacy))
  }

  /** The database a complete plan leads to. */
  function Final(t: Tables, legacy: nat, assignments: seq<Assignment>, remainder: Option<nat>): Tables {
    Reached(t, legacy, DestOf(assignments), remainder, remainder)
  }

  ghost predicate AllDestined(t: Tables, legacy: nat, dest: map<nat, nat>) {
    Destinations(t, legacy, dest) && forall a | a in t.accounts && t.accounts[a].owner == legacy :: a in dest
  }

  lemma CompleteDestines(t: Tables, legacy: nat, assignments: seq<Assignment>, remainder: Option<nat>)
    requires Complete(t, legacy, assignments, remainder)
    ensures AllDestined(t, legacy, DestOf(assignments))
  {
    DestIs(t, legacy, assignments);
  }

  // --------------------------------------------------------------------- the checks

  lemma AccountsReleased(accounts: map<nat, Account>, legacy: nat, dest: map<nat, nat>)
    requires forall m | m in dest :: dest[m] != legacy
    requires forall a | a in accounts && accounts[a].owner == legacy :: a in dest
    ensures forall a | a in AccountsGo(accounts, legacy, dest) :: AccountsGo(accounts, legacy, dest)[a].owner != legacy
  {
  }

  lemma EmailsReleased(t: Tables, legacy: nat, dest: map<nat, nat>, mail: Option<nat>)
    requires EmailsAgree(t.emails, t.accounts) && AllDestined(t, legacy, dest)
    requires if mail.Some? then mail.value != legacy
             else forall e | e in t.emails && t.emails[e].account.None? :: t.emails[e].owner != legacy
    ensures forall e | e in EmailsGo(t.emails, legacy, dest, mail) :: EmailsGo(t.emails, legacy, dest, mail)[e].owner != legacy
  {
    forall e | e in t.emails ensures EmailGoes(t.emails[e], legacy, dest, mail).owner != legacy {
      var email := t.emails[e];
      if email.owner == legacy && email.account.Some? {
        assert email.account.value in t.accounts && t.accounts[email.account.value].owner == legacy;
      }
    }
  }

  /** Children agree, so none is left where no parent is. */
  lemma ChildrenReleased(children: map<nat, Child>, owners: map<nat, nat>, legacy: nat)
    requires Agree(children, owners) && forall p | p in owners :: owners[p] != legacy
    ensures forall c | c in children :: children[c].owner != legacy
  {
    forall c | c in children ensures children[c].owner != legacy {
      assert owners[children[c].parent] == children[c].owner;
    }
  }

  lemma EventsReleased(events: map<nat, Event>, legacy: nat, to: Option<nat>)
    requires if to.Some? then to.value != legacy else forall e | e in events :: events[e].owner != legacy
    ensures forall e | e in EventsGo(events, legacy, to) :: EventsGo(events, legacy, to)[e].owner != legacy
  {
  }

  lemma ParentsReleased(t: Tables, legacy: nat, assignments: seq<Assignment>, remainder: Option<nat>)
    requires Consistent(t) && Complete(t, legacy, assignments, remainder)
    ensures var f := Final(t, legacy, assignments, remainder);
            (forall a | a in f.accounts :: f.accounts[a].owner != legacy) &&
            (forall e | e in f.emails :: f.emails[e].owner != legacy) && (forall e | e in f.events :: f.events[e].owner != legacy)
  {
    CompleteDestines(t, legacy, assignments, remainder);
    AccountsReleased(t.accounts, legacy, DestOf(assignments));
    EmailsReleased(t, legacy, DestOf(assignments), remainder);
    EventsReleased(t.events, legacy, remainder);
  }

  lemma DescendantsReleased(f: Tables, legacy: nat)
    requires Consistent(f)
    requires (forall e | e in f.emails :: f.emails[e].owner != legacy) && (forall e | e in f.events :: f.events[e].owner != legacy)
    ensures (forall x | x in f.extractions :: f.extractions[x].owner != legacy)
    ensures (forall a | a in f.attachments :: f.attachments[a].owner != legacy)
    ensures (forall i | i in f.intelligence :: f.intelligence[i].owner != legacy)
    ensures (forall u | u in f.updates :: f.updates[u].owner != legacy)
  {
    ChildrenReleased(f.extractions, EmailOwners(f.emails), legacy);
    ChildrenReleased(f.attachments, EmailOwners(f.emails), legacy);
    ChildrenReleased(f.intelligence, ChildOwners(f.attachments), legacy);
    ChildrenReleased(f.updates, EventOwners(f.events), legacy);
  }

  /** The placeholder ends owning nothing, in the six tables checked and in the seventh. */
  lemma FinalReleased(t: Tables, legacy: nat, assignments: seq<Assignment>, remainder: Option<nat>)
    requires Consistent(t) && Complete(t, legacy, assignments, remainder) && Consistent(Final(t, legacy, assignments, remainder))
    ensures var f := Final(t, legacy, assignments, remainder);
            Released(f, legacy) && forall i | i in f.intelligence :: f.intelligence[i].owner != legacy
  {
    ParentsReleased(t, legacy, assignments, remainder);
    DescendantsReleased(Final(t, legacy, assignments, remainder), legacy);
  }

  lemma FinalMailboxes(t: Tables, legacy: nat, assignments: seq<Assignment>, remainder: Option<nat>)
    requires Assigned(t, legacy, assignments) && Consistent(Final(t, legacy, assignments, remainder))
    ensures var f := Final(t, legacy, assignments, remainder);
            OwnersMatch(f, assignments) && forall k | 0 <= k < |assignments| :: MailboxTransferred(f, assignments[k])
  {
    var f := Final(t, legacy, assignments, remainder);
    DestIs(t, legacy, assignments);
    forall k | 0 <= k < |assignments|
      ensures MailboxTransferred(f, assignments[k]) && f.accounts[assignments[k].mailbox].owner == assignments[k].owner
    {
      assert f.accounts[assignments[k].mailbox].owner == assignments[k].owner;
      MailboxCleared(f, legacy, assignments[k]);
    }
  }

  lemma ConsistentChecks(f: Tables)
    requires Consistent(f)
    ensures OwnershipConsistent(f)
  {
    assert forall u | u in f.updates :: EventOwners(f.events)[f.updates[u].parent] == f.updates[u].owner;
    assert forall x | x in f.extractions :: EmailOwners(f.emails)[f.extractions[x].parent] == f.extractions[x].owner;
    assert forall a | a in f.attachments :: EmailOwners(f.emails)[f.attachments[a].parent] == f.attachments[a].owner;
  }

  lemma OneUpdateMoves(t: Tables, s: Tables, f: Tables, legacy: nat, owner: nat, u: nat)
    requires Agree(t.updates, EventOwners(t.events)) && s.events == t.events && f.events == MovedEvents(t.events, legacy, owner)
    requires s.updates == Adopted(t.updates, EventOwners(s.events)) && f.updates == Adopted(t.updates, EventOwners(f.events))
    requires u in s.updates && s.updates[u].owner == legacy
    ensures u in f.updates && f.updates[u].owner == owner
  {
    assert EventOwners(t.events)[t.updates[u].parent] == t.updates[u].owner;
  }

  lemma SnapshotArrives(t: Tables, legacy: nat, dest: map<nat, nat>, owner: nat)
    requires Consistent(t) && Destinations(t, legacy, dest)
    ensures RemainderTransferred(Reached(t, legacy, dest, Some(owner), Some(owner)),
                                 SnapshotRemainder(Reached(t, legacy, dest, None, None), legacy), owner)
  {
    var s, f := Reached(t, legacy, dest, None, None), Reached(t, legacy, dest, Some(owner), Some(owner));
    forall u | u in s.updates && s.updates[u].owner == legacy ensures u in f.updates && f.updates[u].owner == owner {
      OneUpdateMoves(t, s, f, legacy, owner, u);
    }
    SnapshotMail(t.emails, legacy, dest, owner);
    SnapshotEvents(t.events, legacy, owner);
  }

  lemma SnapshotMail(emails: map<nat, Email>, legacy: nat, dest: map<nat, nat>, owner: nat)
    ensures forall e | e in emails && EmailsGo(emails, legacy, dest, None)[e].owner == legacy &&
                       EmailsGo(emails, legacy, dest, None)[e].account.None? ::
              EmailsGo(emails, legacy, dest, Some(owner))[e].owner == owner
  {
  }

  lemma SnapshotEvents(events: map<nat, Event>, legacy: nat, owner: nat)
    ensures forall e | e in events && events[e].owner == legacy :: MovedEvents(events, legacy, owner)[e].owner == owner
  {
  }

  lemma ChecksPass(t: Tables, legacy: nat, assignments: seq<Assignment>, remainder: Option<nat>)
    requires Consistent(t) && Complete(t, legacy, assignments, remainder)
    requires remainder.Some? ==> !Clash(t.events, legacy, remainder.value)
    ensures Verified(Reached(t, legacy, DestOf(assignments), None, None), Final(t, legacy, assignments, remainder),
                     legacy, assignments, remainder)
  {
    if remainder.Some? {
      MoveRefusedIff(t.events, legacy, remainder.value);
      CompleteDestines(t, legacy, assignments, remainder);
      SnapshotArrives(t, legacy, DestOf(assignments), remainder.value);
    }
    ReachedConsistent(t, legacy, DestOf(assignments), remainder, remainder);
    FinalReleased(t, legacy, assignments, remainder);
    FinalMailboxes(t, legacy, assignments, remainder);
    ConsistentChecks(Final(t, legacy, assignments, remainder));
  }

  // -------------------------------------------------------------------- the theorem

  /**
   From a consistent database and a complete plan, the transfer commits unless the operator's
   destination already holds an event key the placeholder holds; then it rolls back. What it
   commits is the final state, and no check inside the transaction ever fails.
   */
  lemma CommitsIff(t: Tables, legacy: nat, assignments: seq<Assignment>, remainder: Option<nat>)
    requires Consistent(t) && Complete(t, legacy, assignments, remainder)
    ensures Execute(t, legacy, assignments, remainder) ==
              if remainder.Some? && Clash(t.events, legacy, remainder.value) then None
              else Some(Final(t, legacy, assignments, remainder))
  {
    MailboxesMove(t, legacy, assignments);
    if remainder.Some? {
      RemainderMoves(t, legacy, DestOf(assignments), remainder.value);
    }
    if !(remainder.Some? && Clash(t.events, legacy, remainder.value)) {
      ChecksPass(t, legacy, assignments, remainder);
    }
  }

  /** One event parked and one of the same key with the destination: a complete plan that rolls back. */
  lemma DoesNotAlwaysCommit()
    ensures var t := Tables(map[], map[], map[], map[], map[], map[1 := Event(0, "k"), 2 := Event(7, "k")], map[]);
            Consistent(t) && Complete(t, 0, [], Some(7)) && Execute(t, 0, [], Some(7)).None?
  {
    var t := Tables(map[], map[], map[], map[], map[], map[1 := Event(0, "k"), 2 := Event(7, "k")], map[]);
    assert t.events[1].owner == 0 && t.events[2].owner == 7 && t.events[1].key == t.events[2].key;
    assert Clash(t.events, 0, 7);
    CommitsIff(t, 0, [], Some(7));
  }

  /** Mailboxes at the end: none lost, the parked ones with their assigned owner, the others untouched. */
  lemma MailboxesAreExact(t: Tables, legacy: nat, assignments: seq<Assignment>, remainder: Option<nat>)
    requires Complete(t, legacy, assignments, remainder)
    ensures var f, dest := Final(t, legacy, assignments, remainder), DestOf(assignments);
            f.accounts.Keys == t.accounts.Keys &&
            forall a | a in t.accounts ::
              if t.accounts[a].owner == legacy then a in dest && f.accounts[a] == t.accounts[a].(owner := dest[a])
              else f.accounts[a] == t.accounts[a]
  {
    CompleteDestines(t, legacy, assignments, remainder);
  }

  /** Mail at the end: with its mailbox's new owner, or the operator's choice when it has none. */
  lemma MailIsExact(t: Tables, legacy: nat, assignments: seq<Assignment>, remainder: Option<nat>, e: nat)
    requires EmailsAgree(t.emails, t.accounts) && Complete(t, legacy, assignments, remainder) && e in t.emails
    ensures var f, dest, email := Final(t, legacy, assignments, remainder), DestOf(assignments), t.emails[e];
            f.emails.Keys == t.emails.Keys &&
            if email.owner != legacy then f.emails[e] == email
            else if email.account.Some? then
              email.account.value in dest && f.emails[e] == email.(owner := dest[email.account.value])
            else remainder.Some? && f.emails[e] == email.(owner := remainder.value)
  {
    CompleteDestines(t, legacy, assignments, remainder);
    var email := t.emails[e];
    if email.account.Some? {
      assert t.accounts[email.account.value].owner == email.owner;
    }
  }

  /** Events at the end: the placeholder's with the operator's choice, under the same keys. */
  lemma EventsAreExact(t: Tables, legacy: nat, assignments: seq<Assignment>, remainder: Option<nat>)
    requires Complete(t, legacy, assignments, remainder)
    ensures var f := Final(t, legacy, assignments, remainder);
            f.events.Keys == t.events.Keys &&
            forall e | e in t.events ::
              if t.events[e].owner == legacy then remainder.Some? && f.events[e] == t.events[e].(owner := remainder.value)
              else f.events[e] == t.events[e]
  {
  }

  lemma ParentsKeep(t: Tables, legacy: nat, dest: map<nat, nat>, remainder: Option<nat>)
    requires Consistent(t) && Destinations(t, legacy, dest)
    ensures var f := Reached(t, legacy, dest, remainder, remainder);
            KeepOwners(EmailOwners(t.emails), EmailOwners(f.emails), legacy) &&
            KeepOwners(EventOwners(t.events), EventOwners(f.events), legacy)
  {
  }

  /** A parent that was not the placeholder's keeps its owner. */
  ghost predicate KeepOwners(before: map<nat, nat>, after: map<nat, nat>, legacy: nat) {
    forall p | p in before && before[p] != legacy :: p in after && after[p] == before[p]
  }

  lemma ChildrenKeep(t: Tables, f: Tables, legacy: nat)
    requires Consistent(t)
    requires KeepOwners(EmailOwners(t.emails), EmailOwners(f.emails), legacy)
    requires KeepOwners(EventOwners(t.events), EventOwners(f.events), legacy)
    requires f.extractions == Adopted(t.extractions, EmailOwners(f.emails))
    requires f.attachments == Adopted(t.attachments, EmailOwners(f.emails))
    requires f.intelligence == Adopted(t.intelligence, ChildOwners(f.attachments))
    requires f.updates == Adopted(t.updates, EventOwners(f.events))
    ensures OthersKeep(t.extractions, f.extractions, legacy) && OthersKeep(t.attachments, f.attachments, legacy)
    ensures OthersKeep(t.intelligence, f.intelligence, legacy) && OthersKeep(t.updates, f.updates, legacy)
  {
    AdoptedKeeps(t.extractions, EmailOwners(t.emails), EmailOwners(f.emails), legacy);
    AdoptedKeeps(t.attachments, EmailOwners(t.emails), EmailOwners(f.emails), legacy);
    OwnerKeeps(t.attachments, f.attachments, legacy);
    AdoptedKeeps(t.intelligence, ChildOwners(t.attachments), ChildOwners(f.attachments), legacy);
    AdoptedKeeps(t.updates, EventOwners(t.events), EventOwners(f.events), legacy);
  }

  /** Descendants end with their parent's owner, and those that were not the placeholder's keep theirs. */
  lemma DescendantsFollow(t: Tables, legacy: nat, assignments: seq<Assignment>, remainder: Option<nat>)
    requires Consistent(t) && Complete(t, legacy, assignments, remainder)
    requires remainder.Some? ==> !Clash(t.events, legacy, remainder.value)
    ensures Consistent(Final(t, legacy, assignments, remainder))
    ensures var f := Final(t, legacy, assignments, remainder);
            OthersKeep(t.extractions, f.extractions, legacy) && OthersKeep(t.attachments, f.attachments, legacy) &&
            OthersKeep(t.intelligence, f.intelligence, legacy) && OthersKeep(t.updates, f.updates, legacy)
  {
    if remainder.Some? {
      MoveRefusedIff(t.events, legacy, remainder.value);
    }
    ReachedConsistent(t, legacy, DestOf(assignments), remainder, remainder);
    CompleteDestines(t, legacy, assignments, remainder);
    ParentsKeep(t, legacy, DestOf(assignments), remainder);
    ChildrenKeep(t, Final(t, legacy, assignments, remainder), legacy);
  }

  /** Same rows under the same parents, and the owner changed only where it was the placeholder. */
  ghost predicate OthersKeep(before: map<nat, Child>, after: map<nat, Child>, legacy: nat) {
    && after.Keys == before.Keys
    && forall c | c in before :: after[c].parent == before[c].parent && (before[c].owner != legacy ==> after[c] == before[c])
  }

  lemma OwnerKeeps(before: map<nat, Child>, after: map<nat, Child>, legacy: nat)
    requires OthersKeep(before, after, legacy)
    ensures forall p | p in ChildOwners(before) && ChildOwners(before)[p] != legacy ::
              p in ChildOwners(after) && ChildOwners(after)[p] == ChildOwners(before)[p]
  {
  }

  lemma AdoptedKeeps(children: map<nat, Child>, before: map<nat, nat>, after: map<nat, nat>, legacy: nat)
    requires Agree(children, before)
    requires forall p | p in before && before[p] != legacy :: p in after && after[p] == before[p]
    ensures OthersKeep(children, Adopted(children, after), legacy)
  {
    forall c | c in children && children[c].owner != legacy ensures Adopted(children, after)[c] == children[c] {
      assert before[children[c].parent] == children[c].owner;
    }
  }

  // ---------------------------------------------------- what a commit has been checked for

  /** The placeholder owns no mailbox, mail, extraction, attachment, event or history row. */
  ghost predicate OwnsNothing(t: Tables, legacy: nat) {
    && (forall a | a in t.accounts :: t.accounts[a].owner != legacy)
    && (forall e | e in t.emails :: t.emails[e].owner != legacy)
    && (forall x | x in t.extractions :: t.extractions[x].owner != legacy)
    && (forall a | a in t.attachments :: t.attachments[a].owner != legacy)
    && (forall e | e in t.events :: t.events[e].owner != legacy)
    && (forall u | u in t.updates :: t.updates[u].owner != legacy)
  }

  /** Each assigned mailbox, and the mail under it, is its assigned owner's. */
  ghost predicate MailboxesArrived(t: Tables, assignments: seq<Assignment>) {
    forall k | 0 <= k < |assignments| ::
      && assignments[k].mailbox in t.accounts && t.accounts[assignments[k].mailbox].owner == assignments[k].owner
      && forall e | e in t.emails && t.emails[e].account == Some(assignments[k].mailbox) ::
           t.emails[e].owner == assignments[k].owner
  }

  /** No mail, extraction, attachment or history row disagrees with its parent, where it has one. */
  ghost predicate ParentsAgree(t: Tables) {
    && (forall e, a | e in t.emails && a in t.accounts && t.emails[e].account == Some(a) ::
          t.emails[e].owner == t.accounts[a].owner)
    && (forall x, e | x in t.extractions && e in t.emails && t.extractions[x].parent == e ::
          t.extractions[x].owner == t.emails[e].owner)
    && (forall a, e | a in t.attachments && e in t.emails && t.attachments[a].parent == e ::
          t.attachments[a].owner == t.emails[e].owner)
    && (forall u, e | u in t.updates && e in t.events && t.updates[u].parent == e :: t.updates[u].owner == t.events[e].owner)
  }

  /** What the placeholder still held when the operator's pass began is the operator's choice's. */
  ghost predicate RemainderArrived(before: Tables, t: Tables, legacy: nat, to: nat) {
    && (forall e | e in before.events && before.events[e].owner == legacy && e in t.events :: t.events[e].owner == to)
    && (forall u | u in before.updates && before.updates[u].owner == legacy && u in t.updates :: t.updates[u].owner == to)
    && (forall e | e in before.emails && before.emails[e].owner == legacy && before.emails[e].account.None? && e in t.emails ::
          t.emails[e].owner == to)
  }

  /** And what is found so throughout is not refused: the checks ask no more. */
  lemma VerifiedIs(before: Tables, t: Tables, legacy: nat, assignments: seq<Assignment>, remainder: Option<nat>)
    ensures Verified(before, t, legacy, assignments, remainder) <==>
              OwnsNothing(t, legacy) && MailboxesArrived(t, assignments) && ParentsAgree(t) &&
              (remainder.Some? ==> RemainderArrived(before, t, legacy, remainder.value))
  {
    ReleasedIs(t, legacy);
    ArrivedIs(t, assignments);
    AgreementIs(t);
    if remainder.Some? {
      RemainderIs(before, t, legacy, remainder.value);
    }
  }

  lemma ReleasedIs(t: Tables, legacy: nat)
    ensures Released(t, legacy) <==> OwnsNothing(t, legacy)
  {
  }

  lemma ArrivedIs(t: Tables, assignments: seq<Assignment>)
    ensures (forall k | 0 <= k < |assignments| :: MailboxTransferred(t, assignments[k])) && OwnersMatch(t, assignments) <==>
              MailboxesArrived(t, assignments)
  {
    assert forall k | 0 <= k < |assignments| :: MailboxTransferred(t, assignments[k]) <==>
        assignments[k].mailbox in t.accounts && t.accounts[assignments[k].mailbox].owner == assignments[k].owner &&
        forall e | e in t.emails && t.emails[e].account == Some(assignments[k].mailbox) ::
          t.emails[e].owner == assignments[k].owner;
  }

  lemma AgreementIs(t: Tables)
    ensures OwnershipConsistent(t) <==> ParentsAgree(t)
  {
  }

  lemma RemainderIs(before: Tables, t: Tables, legacy: nat, to: nat)
    ensures RemainderTransferred(t, SnapshotRemainder(before, legacy), to) <==> RemainderArrived(before, t, legacy, to)
  {
  }

  /** Whatever it starts from and whatever the plan: nothing is committed that has not been found so. */
  lemma CommittedIsChecked(t: Tables, legacy: nat, assignments: seq<Assignment>, remainder: Option<nat>)
    requires Execute(t, legacy, assignments, remainder).Some?
    ensures var f := Execute(t, legacy, assignments, remainder).value;
            && OwnsNothing(f, legacy) && MailboxesArrived(f, assignments) && ParentsAgree(f)
            && TransferMailboxes(t, legacy, assignments).Some?
            && (remainder.Some? ==>
                  RemainderArrived(TransferMailboxes(t, legacy, assignments).value, f, legacy, remainder.value))
  {
    var mailboxes := TransferMailboxes(t, legacy, assignments).value;
    VerifiedIs(mailboxes, Execute(t, legacy, assignments, remainder).value, legacy, assignments, remainder);
  }
}
