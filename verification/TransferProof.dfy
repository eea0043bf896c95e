/**
 What a transfer comes to. From a consistent database and a complete plan, every statement but
 one succeeds and every check passes; the exception is the move of events, which the unique
 key refuses exactly when the operator's destination already has an event under a key the
 placeholder holds.
 */
module TransferProof {
  import opened Prelude
  import opened Transfer

  // ----------------------------------------------------------- the state reached

  function EmailGoes(email: Email, legacy: nat, dest: map<nat, nat>, mail: Option<nat>): Email {
    if email.owner != legacy then email
    else if email.account.Some? then
      if email.account.value in dest then email.(owner := dest[email.account.value]) else email
    else if mail.Some? then email.(owner := mail.value) else email
  }

  /** Children take their parent's owner. */
  function Adopted(children: map<nat, Child>, owners: map<nat, nat>): map<nat, Child> {
    map c | c in children ::
      if children[c].parent in owners then children[c].(owner := owners[children[c].parent]) else children[c]
  }

  function AccountsGo(accounts: map<nat, Account>, legacy: nat, dest: map<nat, nat>): map<nat, Account> {
    map a | a in accounts :: if accounts[a].owner == legacy && a in dest then accounts[a].(owner := dest[a]) else accounts[a]
  }

  function EmailsGo(emails: map<nat, Email>, legacy: nat, dest: map<nat, nat>, mail: Option<nat>): map<nat, Email> {
    map e | e in emails :: EmailGoes(emails[e], legacy, dest, mail)
  }

  function EventsGo(events: map<nat, Event>, legacy: nat, to: Option<nat>): map<nat, Event> {
    if to.Some? then MovedEvents(events, legacy, to.value) else events
  }

  /**
   The database once the mailboxes in `dest` have gone where it says, and the mailbox-less mail
   and the events, if given, to the operator's choice.
   */
  function Reached(t: Tables, legacy: nat, dest: map<nat, nat>, mail: Option<nat>, events: Option<nat>): Tables {
    var emails := EmailsGo(t.emails, legacy, dest, mail);
    var attachments := Adopted(t.attachments, EmailOwners(emails));
    var moved := EventsGo(t.events, legacy, events);
    Tables(AccountsGo(t.accounts, legacy, dest), emails, Adopted(t.extractions, EmailOwners(emails)), attachments,
           Adopted(t.intelligence, ChildOwners(attachments)), moved, Adopted(t.updates, EventOwners(moved)))
  }

  lemma AdoptedAgree(children: map<nat, Child>, before: map<nat, nat>, after: map<nat, nat>)
    requires Agree(children, before) && before.Keys == after.Keys
    ensures Agree(Adopted(children, after), after)
    ensures Follow(children, before, after) == Adopted(children, after)
    ensures Adopted(children, before) == children
  {
    forall c | c in children ensures children[c].parent in after {
      assert children[c].parent in before.Keys;
    }
  }

  /** Following twice is following once to the end. */
  lemma AdoptedTwice(children: map<nat, Child>, first: map<nat, nat>, second: map<nat, nat>)
    requires first.Keys == second.Keys
    ensures Adopted(Adopted(children, first), second) == Adopted(children, second)
  {
    forall c | c in children ensures children[c].parent in first <==> children[c].parent in second {
      assert children[c].parent in first.Keys <==> children[c].parent in second.Keys;
    }
  }

  /** Who may receive: never the placeholder. */
  ghost predicate Destinations(t: Tables, legacy: nat, dest: map<nat, nat>) {
    forall a | a in dest :: a in t.accounts && t.accounts[a].owner == legacy && dest[a] != legacy
  }

  /** Replacing the emails' owners carries the children along. */
  lemma WithEmailsIs(t: Tables, emails: map<nat, Email>)
    requires Consistent(t) && emails.Keys == t.emails.Keys
    ensures var attachments := Adopted(t.attachments, EmailOwners(emails));
            WithEmails(t, emails) ==
              t.(emails := emails, extractions := Adopted(t.extractions, EmailOwners(emails)), attachments := attachments,
                 intelligence := Adopted(t.intelligence, ChildOwners(attachments)))
  {
    var before, after := EmailOwners(t.emails), EmailOwners(emails);
    assert before.Keys == t.emails.Keys && after.Keys == emails.Keys;
    AdoptedAgree(t.extractions, before, after);
    AdoptedAgree(t.attachments, before, after);
    var attachments := Adopted(t.attachments, after);
    assert ChildOwners(attachments).Keys == ChildOwners(t.attachments).Keys;
    AdoptedAgree(t.intelligence, ChildOwners(t.attachments), ChildOwners(attachments));
  }

  lemma ReachedEmailsAgree(t: Tables, legacy: nat, dest: map<nat, nat>, mail: Option<nat>)
    requires EmailsAgree(t.emails, t.accounts)
    ensures EmailsAgree(EmailsGo(t.emails, legacy, dest, mail), AccountsGo(t.accounts, legacy, dest))
  {
  }

  lemma EmailKeys(emails: map<nat, Email>, legacy: nat, dest: map<nat, nat>, mail: Option<nat>)
    ensures EmailOwners(EmailsGo(emails, legacy, dest, mail)).Keys == emails.Keys
  {
  }

  lemma ChildKeys(children: map<nat, Child>, owners: map<nat, nat>)
    ensures ChildOwners(Adopted(children, owners)).Keys == children.Keys
  {
  }

  lemma EventKeys(events: map<nat, Event>, legacy: nat, to: Option<nat>)
    ensures EventOwners(EventsGo(events, legacy, to)).Keys == events.Keys
  {
  }

  lemma OwnKeys(t: Tables)
    ensures EmailOwners(t.emails).Keys == t.emails.Keys && ChildOwners(t.attachments).Keys == t.attachments.Keys
    ensures EventOwners(t.events).Keys == t.events.Keys
  {
  }

  lemma ChildrenAgree(children: map<nat, Child>, before: map<nat, nat>, after: map<nat, nat>)
    requires Agree(children, before) && before.Keys == after.Keys
    ensures Agree(Adopted(children, after), after)
  {
    AdoptedAgree(children, before, after);
  }

  lemma ReachedConsistent(t: Tables, legacy: nat, dest: map<nat, nat>, mail: Option<nat>, events: Option<nat>)
    requires Consistent(t)
    requires events.Some? ==> KeysUnique(MovedEvents(t.events, legacy, events.value))
    ensures Consistent(Reached(t, legacy, dest, mail, events))
  {
    var r := Reached(t, legacy, dest, mail, events);
    EmailKeys(t.emails, legacy, dest, mail);
    ChildKeys(t.attachments, EmailOwners(r.emails));
    EventKeys(t.events, legacy, events);
    OwnKeys(t);
    ReachedEmailsAgree(t, legacy, dest, mail);
    ChildrenAgree(t.extractions, EmailOwners(t.emails), EmailOwners(r.emails));
    ChildrenAgree(t.attachments, EmailOwners(t.emails), EmailOwners(r.emails));
    ChildrenAgree(t.intelligence, ChildOwners(t.attachments), ChildOwners(r.attachments));
    ChildrenAgree(t.updates, EventOwners(t.events), EventOwners(r.events));
  }

  lemma ParentsStay(t: Tables, legacy: nat)
    ensures AccountsGo(t.accounts, legacy, map[]) == t.accounts && EmailsGo(t.emails, legacy, map[], None) == t.emails
    ensures EventsGo(t.events, legacy, None) == t.events
  {
  }

  lemma ChildrenStay(children: map<nat, Child>, owners: map<nat, nat>)
    requires Agree(children, owners)
    ensures Adopted(children, owners) == children
  {
    AdoptedAgree(children, owners, owners);
  }

  lemma ReachedNothing(t: Tables, legacy: nat)
    requires Consistent(t)
    ensures Reached(t, legacy, map[], None, None) == t
  {
    ParentsStay(t, legacy);
    ChildrenStay(t.extractions, EmailOwners(t.emails));
    ChildrenStay(t.attachments, EmailOwners(t.emails));
    ChildrenStay(t.intelligence, ChildOwners(t.attachments));
    ChildrenStay(t.updates, EventOwners(t.events));
  }

  // ------------------------------------------------------- statements, one by one

  /** Emails replaced under the same ids: the descendants adopt the new owners directly. */
  lemma Descend(t: Tables, s: Tables, emails: map<nat, Email>)
    requires Consistent(s) && s.emails.Keys == t.emails.Keys && emails.Keys == t.emails.Keys
    requires s.extractions == Adopted(t.extractions, EmailOwners(s.emails))
    requires s.attachments == Adopted(t.attachments, EmailOwners(s.emails))
    requires s.intelligence == Adopted(t.intelligence, ChildOwners(s.attachments))
    ensures var r, attachments := WithEmails(s, emails), Adopted(t.attachments, EmailOwners(emails));
            r == s.(emails := emails, extractions := Adopted(t.extractions, EmailOwners(emails)), attachments := attachments,
                    intelligence := Adopted(t.intelligence, ChildOwners(attachments)))
  {
    var first, second := EmailOwners(s.emails), EmailOwners(emails);
    assert first.Keys == s.emails.Keys && second.Keys == emails.Keys;
    WithEmailsIs(s, emails);
    AdoptedTwice(t.extractions, first, second);
    AdoptedTwice(t.attachments, first, second);
    var attachments := Adopted(t.attachments, second);
    assert ChildOwners(s.attachments).Keys == ChildOwners(attachments).Keys;
    AdoptedTwice(t.intelligence, ChildOwners(s.attachments), ChildOwners(attachments));
  }

  lemma OneEmailFollows(t: Tables, legacy: nat, dest: map<nat, nat>, a: Assignment, e: nat)
    requires EmailsAgree(t.emails, t.accounts) && Destinations(t, legacy, dest) && a.mailbox !in dest && a.owner != legacy
    requires e in t.emails
    ensures var emails, accounts := EmailsGo(t.emails, legacy, dest, None), AccountsGo(t.accounts, legacy, dest);
            FollowAccounts(emails, accounts, MovedAccounts(accounts, legacy, a.owner, a.mailbox))[e] ==
              EmailGoes(t.emails[e], legacy, dest[a.mailbox := a.owner], None)
  {
    var email := t.emails[e];
    if email.account.Some? {
      var m := email.account.value;
      assert m in t.accounts && t.accounts[m].owner == email.owner;
      assert AccountsGo(t.accounts, legacy, dest)[m].owner == if email.owner == legacy && m in dest then dest[m] else email.owner;
    }
  }

  lemma EmailsFollow(t: Tables, legacy: nat, dest: map<nat, nat>, a: Assignment)
    requires EmailsAgree(t.emails, t.accounts) && Destinations(t, legacy, dest) && a.mailbox !in dest && a.owner != legacy
    ensures var emails, accounts := EmailsGo(t.emails, legacy, dest, None), AccountsGo(t.accounts, legacy, dest);
            FollowAccounts(emails, accounts, MovedAccounts(accounts, legacy, a.owner, a.mailbox)) ==
              EmailsGo(t.emails, legacy, dest[a.mailbox := a.owner], None)
  {
    var emails, accounts := EmailsGo(t.emails, legacy, dest, None), AccountsGo(t.accounts, legacy, dest);
    var followed := FollowAccounts(emails, accounts, MovedAccounts(accounts, legacy, a.owner, a.mailbox));
    assert followed.Keys == t.emails.Keys;
    forall e | e in t.emails
      ensures followed[e] == EmailGoes(t.emails[e], legacy, dest[a.mailbox := a.owner], None)
    {
      OneEmailFollows(t, legacy, dest, a, e);
    }
  }

  lemma AccountsMove(accounts: map<nat, Account>, legacy: nat, dest: map<nat, nat>, a: Assignment)
    requires forall m | m in dest :: dest[m] != legacy
    requires a.mailbox !in dest
    ensures MovedAccounts(AccountsGo(accounts, legacy, dest), legacy, a.owner, a.mailbox) ==
              AccountsGo(accounts, legacy, dest[a.mailbox := a.owner])
  {
  }

  lemma AccountRuns(s: Tables, legacy: nat, a: Assignment, accounts: map<nat, Account>, emails: map<nat, Email>)
    requires accounts == MovedAccounts(s.accounts, legacy, a.owner, a.mailbox)
    requires emails == FollowAccounts(s.emails, s.accounts, accounts)
    ensures Run(s, legacy, MoveAccount(a.owner, a.mailbox)) == Some(WithEmails(s.(accounts := accounts), emails))
  {
  }

  /** Moving a mailbox's account carries everything under it. */
  lemma AccountMoves(t: Tables, legacy: nat, dest: map<nat, nat>, a: Assignment)
    requires Consistent(t) && Destinations(t, legacy, dest) && a.mailbox !in dest && a.owner != legacy
    ensures Run(Reached(t, legacy, dest, None, None), legacy, MoveAccount(a.owner, a.mailbox)) ==
              Some(Reached(t, legacy, dest[a.mailbox := a.owner], None, None))
  {
    var s := Reached(t, legacy, dest, None, None);
    var after := dest[a.mailbox := a.owner];
    var accounts, emails := AccountsGo(t.accounts, legacy, after), EmailsGo(t.emails, legacy, after, None);
    ReachedConsistent(t, legacy, dest, None, None);
    AccountsMove(t.accounts, legacy, dest, a);
    EmailsFollow(t, legacy, dest, a);
    AccountRuns(s, legacy, a, accounts, emails);
    DescendAfterAccounts(t, s, accounts, emails);
  }

  /** The account table takes no part in the descent. */
  lemma DescendAfterAccounts(t: Tables, s: Tables, accounts: map<nat, Account>, emails: map<nat, Email>)
    requires Consistent(s) && s.emails.Keys == t.emails.Keys && emails.Keys == t.emails.Keys
    requires s.extractions == Adopted(t.extractions, EmailOwners(s.emails))
    requires s.attachments == Adopted(t.attachments, EmailOwners(s.emails))
    requires s.intelligence == Adopted(t.intelligence, ChildOwners(s.attachments))
    ensures var attachments := Adopted(t.attachments, EmailOwners(emails));
            WithEmails(s.(accounts := accounts), emails) ==
              s.(accounts := accounts, emails := emails, extractions := Adopted(t.extractions, EmailOwners(emails)),
                 attachments := attachments, intelligence := Adopted(t.intelligence, ChildOwners(attachments)))
  {
    Descend(t, s, emails);
  }

  // ------------------------------------------------------- statements that find nothing

  /** No email of the given account, or of none, is left with the placeholder. */
  ghost predicate Cleared(s: Tables, legacy: nat, account: Option<nat>) {
    forall e | e in s.emails && s.emails[e].account == account :: s.emails[e].owner != legacy
  }

  lemma SameEmails(s: Tables)
    requires Consistent(s)
    ensures WithEmails(s, s.emails) == s && WithAttachments(s, s.attachments) == s
  {
    WithEmailsIs(s, s.emails);
    AdoptedAgree(s.extractions, EmailOwners(s.emails), EmailOwners(s.emails));
    AdoptedAgree(s.attachments, EmailOwners(s.emails), EmailOwners(s.emails));
    AdoptedAgree(s.intelligence, ChildOwners(s.attachments), ChildOwners(s.attachments));
  }

  lemma NoEmailMoves(s: Tables, legacy: nat, to: nat, account: Option<nat>)
    requires Consistent(s) && Cleared(s, legacy, account)
    ensures Run(s, legacy, MoveEmails(to, account)) == Some(s)
  {
    assert MovedEmails(s.emails, legacy, to, account) == s.emails;
    SameEmails(s);
  }

  lemma NoChildMoves(children: map<nat, Child>, emails: map<nat, Email>, legacy: nat, to: nat, account: Option<nat>)
    requires Agree(children, EmailOwners(emails))
    requires forall e | e in emails && emails[e].account == account :: emails[e].owner != legacy
    ensures MovedChildren(children, emails, legacy, to, account) == children
  {
    forall c | c in children ensures MovedChildren(children, emails, legacy, to, account)[c] == children[c] {
      assert EmailOwners(emails)[children[c].parent] == children[c].owner;
    }
  }

  lemma NoExtractionMoves(s: Tables, legacy: nat, to: nat, account: Option<nat>)
    requires Consistent(s) && Cleared(s, legacy, account)
    ensures Run(s, legacy, MoveExtractions(to, account)) == Some(s)
  {
    NoChildMoves(s.extractions, s.emails, legacy, to, account);
  }

  lemma NoAttachmentMoves(s: Tables, legacy: nat, to: nat, account: Option<nat>)
    requires Consistent(s) && Cleared(s, legacy, account)
    ensures Run(s, legacy, MoveAttachments(to, account)) == Some(s)
  {
    NoChildMoves(s.attachments, s.emails, legacy, to, account);
    SameEmails(s);
  }

  lemma RunAllAppend(s: Tables, legacy: nat, sts: seq<Statement>, st: Statement)
    ensures RunAll(s, legacy, sts + [st]) ==
              if RunAll(s, legacy, sts).None? then None else Run(RunAll(s, legacy, sts).value, legacy, st)
  {
    assert (sts + [st])[..|sts|] == sts;
  }

  lemma RunOne(s: Tables, legacy: nat, st: Statement)
    ensures RunAll(s, legacy, [st]) == Run(s, legacy, st)
  {
    assert [st] == [] + [st];
    RunAllAppend(s, legacy, [], st);
  }

  /** The two child statements after their emails have gone: safety nets that catch nothing. */
  lemma ChildrenAreCaught(s: Tables, legacy: nat, sts: seq<Statement>, r: Tables, to: nat, account: Option<nat>)
    requires RunAll(s, legacy, sts) == Some(r) && Consistent(r) && Cleared(r, legacy, account)
    ensures RunAll(s, legacy, sts + [MoveExtractions(to, account), MoveAttachments(to, account)]) == Some(r)
  {
    RunAllAppend(s, legacy, sts, MoveExtractions(to, account));
    NoExtractionMoves(r, legacy, to, account);
    RunAllAppend(s, legacy, sts + [MoveExtractions(to, account)], MoveAttachments(to, account));
    NoAttachmentMoves(r, legacy, to, account);
    assert sts + [MoveExtractions(to, account), MoveAttachments(to, account)] ==
           (sts + [MoveExtractions(to, account)]) + [MoveAttachments(to, account)];
  }

  // --------------------------------------------------------------- one mailbox

  lemma MailboxCleared(s: Tables, legacy: nat, a: Assignment)
    requires EmailsAgree(s.emails, s.accounts) && a.mailbox in s.accounts && s.accounts[a.mailbox].owner == a.owner
    ensures MailboxTransferred(s, a)
    ensures a.owner != legacy ==> Cleared(s, legacy, Some(a.mailbox))
  {
  }

  /** Once the account has moved, the rest of the pass catches nothing and its check holds. */
  lemma PassFrom(s: Tables, r: Tables, legacy: nat, a: Assignment)
    requires Run(s, legacy, MoveAccount(a.owner, a.mailbox)) == Some(r) && Consistent(r) && a.owner != legacy
    requires a.mailbox in r.accounts && r.accounts[a.mailbox].owner == a.owner
    ensures RunAll(s, legacy, MailboxStatements(a)) == Some(r) && MailboxTransferred(r, a)
  {
    MailboxCleared(r, legacy, a);
    var first, second := MoveAccount(a.owner, a.mailbox), MoveEmails(a.owner, Some(a.mailbox));
    RunOne(s, legacy, first);
    NoEmailMoves(r, legacy, a.owner, Some(a.mailbox));
    RunAllAppend(s, legacy, [first], second);
    ChildrenAreCaught(s, legacy, [first] + [second], r, a.owner, Some(a.mailbox));
    assert MailboxStatements(a) ==
      [first] + [second] + [MoveExtractions(a.owner, Some(a.mailbox)), MoveAttachments(a.owner, Some(a.mailbox))];
  }

  lemma AccountArrived(accounts: map<nat, Account>, legacy: nat, dest: map<nat, nat>, a: Assignment)
    requires a.mailbox in accounts && accounts[a.mailbox].owner == legacy
    ensures AccountsGo(accounts, legacy, dest[a.mailbox := a.owner])[a.mailbox].owner == a.owner
  {
  }

  /** A mailbox pass reaches the next state and passes its own check. */
  lemma MailboxPass(t: Tables, legacy: nat, dest: map<nat, nat>, a: Assignment)
    requires Consistent(t) && Destinations(t, legacy, dest) && a.mailbox !in dest && a.owner != legacy
    requires a.mailbox in t.accounts && t.accounts[a.mailbox].owner == legacy
    ensures var r := Reached(t, legacy, dest[a.mailbox := a.owner], None, None);
            RunAll(Reached(t, legacy, dest, None, None), legacy, MailboxStatements(a)) == Some(r) && MailboxTransferred(r, a)
  {
    AccountMoves(t, legacy, dest, a);
    ReachedConsistent(t, legacy, dest[a.mailbox := a.owner], None, None);
    AccountArrived(t.accounts, legacy, dest, a);
    PassFrom(Reached(t, legacy, dest, None, None), Reached(t, legacy, dest[a.mailbox := a.owner], None, None), legacy, a);
  }

  // ----------------------------------------------------------------- all mailboxes

  /** Where the assignments send each mailbox. */
  function DestOf(assignments: seq<Assignment>): map<nat, nat> {
    if assignments == [] then map[]
    else
      var a := assignments[|assignments| - 1];
      DestOf(assignments[..|assignments| - 1])[a.mailbox := a.owner]
  }

  /** Distinct parked mailboxes, each to a user other than the placeholder. */
  ghost predicate Assigned(t: Tables, legacy: nat, assignments: seq<Assignment>) {
    && (forall j, k | 0 <= j < k < |assignments| :: assignments[j].mailbox != assignments[k].mailbox)
    && forall k | 0 <= k < |assignments| ::
         && assignments[k].mailbox in t.accounts && t.accounts[assignments[k].mailbox].owner == legacy
         && assignments[k].owner != legacy
  }

  lemma {:induction false} DestIs(t: Tables, legacy: nat, assignments: seq<Assignment>)
    requires Assigned(t, legacy, assignments)
    ensures Destinations(t, legacy, DestOf(assignments))
    ensures forall k | 0 <= k < |assignments| ::
              assignments[k].mailbox in DestOf(assignments) && DestOf(assignments)[assignments[k].mailbox] == assignments[k].owner
    ensures forall m | m in DestOf(assignments) :: exists k | 0 <= k < |assignments| :: assignments[k].mailbox == m
  {
    if assignments != [] {
      var init, last := assignments[..|assignments| - 1], assignments[|assignments| - 1];
      DestIs(t, legacy, init);
      forall m | m in DestOf(assignments) ensures exists k | 0 <= k < |assignments| :: assignments[k].mailbox == m {
        if m in DestOf(init) {
          var k :| 0 <= k < |init| && init[k].mailbox == m;
          assert assignments[k].mailbox == m;
        } else {
          assert assignments[|assignments| - 1].mailbox == m;
        }
      }
    }
  }

  lemma {:induction false} MailboxesMove(t: Tables, legacy: nat, assignments: seq<Assignment>)
    requires Consistent(t) && Assigned(t, legacy, assignments)
    ensures TransferMailboxes(t, legacy, assignments) == Some(Reached(t, legacy, DestOf(assignments), None, None))
  {
    if assignments == [] {
      ReachedNothing(t, legacy);
    } else {
      var init, last := assignments[..|assignments| - 1], assignments[|assignments| - 1];
      MailboxesMove(t, legacy, init);
      DestIs(t, legacy, init);
      LastIsNew(assignments);
      MailboxPass(t, legacy, DestOf(init), last);
    }
  }

  lemma {:induction false} DestKeys(assignments: seq<Assignment>, m: nat)
    ensures m in DestOf(assignments) ==> exists k | 0 <= k < |assignments| :: assignments[k].mailbox == m
  {
    if assignments != [] && m != assignments[|assignments| - 1].mailbox {
      var init := assignments[..|assignments| - 1];
      DestKeys(init, m);
      if m in DestOf(init) {
        var k :| 0 <= k < |init| && init[k].mailbox == m;
        assert assignments[k].mailbox == m;
      }
    }
  }

  lemma LastIsNew(assignments: seq<Assignment>)
    requires assignments != [] && forall j, k | 0 <= j < k < |assignments| :: assignments[j].mailbox != assignments[k].mailbox
    ensures assignments[|assignments| - 1].mailbox !in DestOf(assignments[..|assignments| - 1])
  {
    var init, m := assignments[..|assignments| - 1], assignments[|assignments| - 1].mailbox;
    forall k | 0 <= k < |init| ensures init[k].mailbox != m {
      assert init[k] == assignments[k];
    }
    DestKeys(init, m);
  }
}
