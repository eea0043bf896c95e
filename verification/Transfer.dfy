/**
 The ownership transfer: scoped updates over the tenant tables, whose composite foreign keys
 cascade a parent's new owner to its children and refuse a child that would disagree, and the
 checks the transaction runs before it commits. `intelligence` is the one owned table the
 script never names; it moves with its attachment or not at all.
 */
module Transfer {
  import opened Prelude

  datatype Account = Account(owner: nat, email: string)
  datatype Email = Email(owner: nat, account: Option<nat>)
  datatype Child = Child(owner: nat, parent: nat)
  datatype Event = Event(owner: nat, key: string)

  /** Each table by id. */
  datatype Tables = Tables(accounts: map<nat, Account>, emails: map<nat, Email>,
                           extractions: map<nat, Child>, attachments: map<nat, Child>, intelligence: map<nat, Child>,
                           events: map<nat, Event>, updates: map<nat, Child>)

  function EmailOwners(emails: map<nat, Email>): map<nat, nat> {
    map id | id in emails :: emails[id].owner
  }

  function ChildOwners(rows: map<nat, Child>): map<nat, nat> {
    map id | id in rows :: rows[id].owner
  }

  function EventOwners(events: map<nat, Event>): map<nat, nat> {
    map id | id in events :: events[id].owner
  }

  // ---------------------------------------------------------------- constraints

  predicate Agree(children: map<nat, Child>, owners: map<nat, nat>) {
    forall c | c in children :: children[c].parent in owners && owners[children[c].parent] == children[c].owner
  }

  predicate EmailsAgree(emails: map<nat, Email>, accounts: map<nat, Account>) {
    forall e | e in emails && emails[e].account.Some? ::
      emails[e].account.value in accounts && accounts[emails[e].account.value].owner == emails[e].owner
  }

  predicate KeysUnique(events: map<nat, Event>) {
    forall i, j | i in events && j in events && events[i] == events[j] :: i == j
  }

  /** Every foreign key and every unique key holds. */
  predicate Consistent(t: Tables) {
    && EmailsAgree(t.emails, t.accounts)
    && Agree(t.extractions, EmailOwners(t.emails)) && Agree(t.attachments, EmailOwners(t.emails))
    && Agree(t.intelligence, ChildOwners(t.attachments))
    && KeysUnique(t.events) && Agree(t.updates, EventOwners(t.events))
  }

  // -------------------------------------------------------------------- cascade

  /** Children that referenced a parent under its old owner now reference it under the new one. */
  function Follow(children: map<nat, Child>, before: map<nat, nat>, after: map<nat, nat>): map<nat, Child> {
    map c | c in children ::
      var child := children[c];
      if child.parent in before && child.parent in after && before[child.parent] == child.owner
      then child.(owner := after[child.parent]) else child
  }

  function FollowAccounts(emails: map<nat, Email>, before: map<nat, Account>, after: map<nat, Account>): map<nat, Email> {
    map e | e in emails ::
      var email := emails[e];
      if email.account.Some? && email.account.value in before && email.account.value in after
         && before[email.account.value].owner == email.owner
      then email.(owner := after[email.account.value].owner) else email
  }

  function WithAttachments(t: Tables, attachments: map<nat, Child>): Tables {
    t.(attachments := attachments,
       intelligence := Follow(t.intelligence, ChildOwners(t.attachments), ChildOwners(attachments)))
  }

  function WithEmails(t: Tables, emails: map<nat, Email>): Tables {
    var before, after := EmailOwners(t.emails), EmailOwners(emails);
    WithAttachments(t.(emails := emails, extractions := Follow(t.extractions, before, after)),
                    Follow(t.attachments, before, after))
  }

  function WithAccounts(t: Tables, accounts: map<nat, Account>): Tables {
    WithEmails(t.(accounts := accounts), FollowAccounts(t.emails, t.accounts, accounts))
  }

  function WithEvents(t: Tables, events: map<nat, Event>): Tables {
    t.(events := events, updates := Follow(t.updates, EventOwners(t.events), EventOwners(events)))
  }

  // ----------------------------------------------------------------- statements

  /** One UPDATE from the placeholder to `to`. `mailbox` is the account the emails must hang off, or none at all. */
  datatype Statement =
    | MoveAccount(to: nat, mailbox: nat)
    | MoveEmails(to: nat, account: Option<nat>)
    | MoveExtractions(to: nat, account: Option<nat>)
    | MoveAttachments(to: nat, account: Option<nat>)
    | MoveEvents(to: nat)
    | MoveUpdates(to: nat)

  function MovedAccounts(accounts: map<nat, Account>, legacy: nat, to: nat, mailbox: nat): map<nat, Account> {
    map a | a in accounts :: if a == mailbox && accounts[a].owner == legacy then accounts[a].(owner := to) else accounts[a]
  }

  function MovedEmails(emails: map<nat, Email>, legacy: nat, to: nat, account: Option<nat>): map<nat, Email> {
    map e | e in emails ::
      if emails[e].owner == legacy && emails[e].account == account then emails[e].(owner := to) else emails[e]
  }

  /** Children of the emails hanging off `account`. */
  function MovedChildren(children: map<nat, Child>, emails: map<nat, Email>, legacy: nat, to: nat, account: Option<nat>)
    : map<nat, Child>
  {
    map c | c in children ::
      var child := children[c];
      if child.owner == legacy && child.parent in emails && emails[child.parent].account == account
      then child.(owner := to) else child
  }

  function MovedEvents(events: map<nat, Event>, legacy: nat, to: nat): map<nat, Event> {
    map e | e in events :: if events[e].owner == legacy then events[e].(owner := to) else events[e]
  }

  function MovedUpdates(updates: map<nat, Child>, legacy: nat, to: nat): map<nat, Child> {
    map u | u in updates :: if updates[u].owner == legacy then updates[u].(owner := to) else updates[u]
  }

  /** A statement, its cascades and its constraint checks. None when a constraint refuses it. */
  function Run(t: Tables, legacy: nat, st: Statement): Option<Tables> {
    match st
    case MoveAccount(to, mailbox) => Some(WithAccounts(t, MovedAccounts(t.accounts, legacy, to, mailbox)))
    case MoveEmails(to, account) =>
      var emails := MovedEmails(t.emails, legacy, to, account);
      if EmailsAgree(emails, t.accounts) then Some(WithEmails(t, emails)) else None
    case MoveExtractions(to, account) =>
      var extractions := MovedChildren(t.extractions, t.emails, legacy, to, account);
      if Agree(extractions, EmailOwners(t.emails)) then Some(t.(extractions := extractions)) else None
    case MoveAttachments(to, account) =>
      var attachments := MovedChildren(t.attachments, t.emails, legacy, to, account);
      if Agree(attachments, EmailOwners(t.emails)) then Some(WithAttachments(t, attachments)) else None
    case MoveEvents(to) =>
      var events := MovedEvents(t.events, legacy, to);
      if KeysUnique(events) then Some(WithEvents(t, events)) else None
    case MoveUpdates(to) =>
      var updates := MovedUpdates(t.updates, legacy, to);
      if Agree(updates, EventOwners(t.events)) then Some(t.(updates := updates)) else None
  }

  function RunAll(t: Tables, legacy: nat, sts: seq<Statement>): Option<Tables> {
    if sts == [] then Some(t)
    else
      var before := RunAll(t, legacy, sts[..|sts| - 1]);
      if before.None? then None else Run(before.value, legacy, sts[|sts| - 1])
  }

  // ----------------------------------------------------------------------- plan

  datatype Assignment = Assignment(mailbox: nat, owner: nat)

  function MailboxStatements(a: Assignment): seq<Statement> {
    [MoveAccount(a.owner, a.mailbox), MoveEmails(a.owner, Some(a.mailbox)),
     MoveExtractions(a.owner, Some(a.mailbox)), MoveAttachments(a.owner, Some(a.mailbox))]
  }

  function RemainderStatements(owner: nat): seq<Statement> {
    [MoveEmails(owner, None), MoveExtractions(owner, None), MoveAttachments(owner, None), MoveEvents(owner), MoveUpdates(owner)]
  }

  // --------------------------------------------------------------------- checks

  predicate MailboxTransferred(t: Tables, a: Assignment) {
    && a.mailbox in t.accounts && t.accounts[a.mailbox].owner == a.owner
    && forall e | e in t.emails && t.emails[e].account == Some(a.mailbox) :: t.emails[e].owner == a.owner
  }

  /** The placeholder owns nothing in any of the six tables the script names. */
  predicate Released(t: Tables, legacy: nat) {
    && (forall a | a in t.accounts :: t.accounts[a].owner != legacy)
    && (forall e | e in t.emails :: t.emails[e].owner != legacy)
    && (forall e | e in t.events :: t.events[e].owner != legacy)
    && (forall u | u in t.updates :: t.updates[u].owner != legacy)
    && (forall x | x in t.extractions :: t.extractions[x].owner != legacy)
    && (forall a | a in t.attachments :: t.attachments[a].owner != legacy)
  }

  predicate OwnersMatch(t: Tables, assignments: seq<Assignment>) {
    forall k | 0 <= k < |assignments| ::
      assignments[k].mailbox in t.accounts && t.accounts[assignments[k].mailbox].owner == assignments[k].owner
  }

  datatype Snapshot = Snapshot(events: set<nat>, updates: set<nat>, emails: set<nat>)

  function SnapshotRemainder(t: Tables, legacy: nat): Snapshot {
    Snapshot(set e | e in t.events && t.events[e].owner == legacy,
             set u | u in t.updates && t.updates[u].owner == legacy,
             set e | e in t.emails && t.emails[e].owner == legacy && t.emails[e].account.None?)
  }

  predicate RemainderTransferred(t: Tables, s: Snapshot, owner: nat) {
    && (forall e | e in s.events && e in t.events :: t.events[e].owner == owner)
    && (forall u | u in s.updates && u in t.updates :: t.updates[u].owner == owner)
    && (forall e | e in s.emails && e in t.emails :: t.emails[e].owner == owner)
  }

  /** No child that has its parent disagrees with it, over the four relations the check joins. */
  predicate OwnershipConsistent(t: Tables) {
    && (forall e | e in t.emails && t.emails[e].account.Some? && t.emails[e].account.value in t.accounts ::
          t.accounts[t.emails[e].account.value].owner == t.emails[e].owner)
    && (forall u | u in t.updates && t.updates[u].parent in t.events :: t.events[t.updates[u].parent].owner == t.updates[u].owner)
    && (forall x | x in t.extractions && t.extractions[x].parent in t.emails ::
          t.emails[t.extractions[x].parent].owner == t.extractions[x].owner)
    && (forall a | a in t.attachments && t.attachments[a].parent in t.emails ::
          t.emails[t.attachments[a].parent].owner == t.attachments[a].owner)
  }

  // ------------------------------------------------------------ the transaction

  /** The mailbox passes, each followed by its own check. */
  function TransferMailboxes(t: Tables, legacy: nat, assignments: seq<Assignment>): Option<Tables> {
    if assignments == [] then Some(t)
    else
      var a := assignments[|assignments| - 1];
      var before := TransferMailboxes(t, legacy, assignments[..|assignments| - 1]);
      if before.None? then None
      else
        var after := RunAll(before.value, legacy, MailboxStatements(a));
        if after.Some? && MailboxTransferred(after.value, a) then after else None
  }

  function TransferRemainder(t: Tables, legacy: nat, remainder: Option<nat>): Option<Tables> {
    if remainder.None? then Some(t) else RunAll(t, legacy, RemainderStatements(remainder.value))
  }

  /** Every check before COMMIT. `before` is the state the remainder was read in. */
  predicate Verified(before: Tables, t: Tables, legacy: nat, assignments: seq<Assignment>, remainder: Option<nat>) {
    && Released(t, legacy)
    && (forall k | 0 <= k < |assignments| :: MailboxTransferred(t, assignments[k]))
    && OwnersMatch(t, assignments)
    && (remainder.Some? ==> RemainderTransferred(t, SnapshotRemainder(before, legacy), remainder.value))
    && OwnershipConsistent(t)
  }

  /** What is committed, or nothing when a statement or a check fails. */
  function Execute(t: Tables, legacy: nat, assignments: seq<Assignment>, remainder: Option<nat>): Option<Tables> {
    var mailboxes := TransferMailboxes(t, legacy, assignments);
    if mailboxes.None? then None
    else
      var all := TransferRemainder(mailboxes.value, legacy, remainder);
      if all.Some? && Verified(mailboxes.value, all.value, legacy, assignments, remainder) then all else None
  }
}
