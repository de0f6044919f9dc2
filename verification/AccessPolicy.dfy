/** Policy decisions and the two operations that edit a policy, on parsed statements. */
module AccessPolicy {
  import opened Identifiers
  import Glob

  const LOCAL_QUEUE_ARN_PREFIX := "arn:aws:sqs:us-east-1:000000000000:"

  datatype Identity = Anonymous | Aws(value: string)
  datatype Effect = Allow | Deny

  datatype Statement = Statement(
    sid: Option<string>, effect: Effect, principals: seq<string>, actions: seq<string>, resources: seq<string>)

  const ACTIONS: seq<string> := [
    "AddPermission", "RemovePermission", "CreateQueue", "DeleteQueue", "GetQueueAttributes", "GetQueueUrl",
    "ListDeadLetterSourceQueues", "ListQueues", "ListQueueTags", "PurgeQueue", "ReceiveMessage", "SendMessage",
    "DeleteMessage", "ChangeMessageVisibility", "SetQueueAttributes", "TagQueue", "UntagQueue",
    "StartMessageMoveTask", "CancelMessageMoveTask", "ListMessageMoveTasks"]

  // ----- text helpers

  function LowerChar(c: char): char {
    if 'A' <= c <= 'Z' then (c as int + 32) as char else c
  }

  /** `to_ascii_lowercase`. */
  function Lower(text: string): (r: string)
    ensures |r| == |text| && forall i :: 0 <= i < |text| ==> r[i] == LowerChar(text[i])
  {
    if text == "" then "" else [LowerChar(text[0])] + Lower(text[1..])
  }

  function ColonAt(text: string): (k: nat)
    ensures k <= |text|
  {
    if text == "" || text[0] == ':' then 0 else 1 + ColonAt(text[1..])
  }

  /** `splitn(n, ':')`. */
  function SplitN(text: string, n: nat): seq<string>
    decreases n
  {
    var k := ColonAt(text);
    if n <= 1 || k == |text| then [text] else [text[..k]] + SplitN(text[k + 1..], n - 1)
  }

  predicate Account(text: string) {
    |text| == 12 && forall c :: c in text ==> '0' <= c <= '9'
  }

  predicate StartsWith(text: string, prefix: string) {
    |prefix| <= |text| && text[..|prefix|] == prefix
  }

  predicate ValidPrincipal(text: string) {
    text == "*" || Account(text)
    || (var parts := SplitN(text, 6);
        && |parts| == 6 && parts[0] == "arn" && parts[1] == "aws" && parts[2] == "iam" && parts[3] == "" && Account(parts[4])
        && (parts[5] == "root"
            || (StartsWith(parts[5], "user/") && |parts[5]| > 5) || (StartsWith(parts[5], "role/") && |parts[5]| > 5))
        && |text| <= 2048 && forall c :: c in text ==> '!' <= c <= '~' && c != '*' && c != '?')
  }

  // ----- the decision

  function IdentityAccount(identity: string): string {
    if Account(identity) then identity
    else var parts := SplitN(identity, 6); if |parts| > 4 then parts[4] else ""
  }

  predicate PrincipalMatches(principal: string, identity: Identity) {
    principal == "*"
    || (identity.Aws?
        && (principal == identity.value
            || (Account(principal) && principal == IdentityAccount(identity.value))
            || principal == "arn:aws:iam::" + IdentityAccount(identity.value) + ":root"))
  }

  function PermissionAction(action: string): string {
    if action == "SendMessageBatch" then "SendMessage"
    else if action == "DeleteMessageBatch" then "DeleteMessage"
    else if action == "ChangeMessageVisibilityBatch" then "ChangeMessageVisibility"
    else action
  }

  function ActionName(action: string): string {
    Lower("sqs:" + PermissionAction(action))
  }

  predicate Applies(s: Statement, identity: Identity, action: string, resource: string) {
    && (exists p :: p in s.principals && PrincipalMatches(p, identity))
    && (exists a :: a in s.actions && Glob.Decide(Lower(a), ActionName(action)))
    && (exists r :: r in s.resources && Glob.Decide(r, resource))
  }

  predicate SomeApplies(items: seq<Statement>, effect: Effect, identity: Identity, action: string, resource: string) {
    exists s :: s in items && s.effect == effect && Applies(s, identity, action, resource)
  }

  /** No policy is open; a policy denies by default, and a matching Deny overrides every Allow. */
  predicate Authorized(policy: Option<seq<Statement>>, identity: Identity, action: string, resource: string) {
    policy.None?
    || (SomeApplies(policy.value, Allow, identity, action, resource) && !SomeApplies(policy.value, Deny, identity, action, resource))
  }

  /** `authorize`, on a policy that parses. */
  method Authorize(policy: Option<seq<Statement>>, identity: Identity, action: string, resource: string) returns (ok: bool)
    ensures ok == Authorized(policy, identity, action, resource)
  {
    if policy.None? {
      return true;
    }
    var items := policy.value;
    var name := ActionName(action);
    var allowed := false;
    for i := 0 to |items|
      invariant allowed == SomeApplies(items[..i], Allow, identity, action, resource)
      invariant !SomeApplies(items[..i], Deny, identity, action, resource)
    {
      assert items[..i + 1] == items[..i] + [items[i]];
      var principal := AnyPrincipal(items[i].principals, identity);
      var named := AnyGlob(items[i].actions, name, true);
      var onResource := AnyGlob(items[i].resources, resource, false);
      if !principal || !named || !onResource {
        continue;
      }
      assert Applies(items[i], identity, action, resource);
      if items[i].effect == Deny {
        return false;
      }
      allowed := true;
    }
    assert items[..|items|] == items;
    return allowed;
  }

  method AnyPrincipal(principals: seq<string>, identity: Identity) returns (found: bool)
    ensures found == exists p :: p in principals && PrincipalMatches(p, identity)
  {
    for i := 0 to |principals|
      invariant forall k :: 0 <= k < i ==> !PrincipalMatches(principals[k], identity)
    {
      if PrincipalMatches(principals[i], identity) {
        return true;
      }
    }
    return false;
  }

  function Folded(pattern: string, fold: bool): string {
    if fold then Lower(pattern) else pattern
  }

  method AnyGlob(patterns: seq<string>, value: string, fold: bool) returns (found: bool)
    ensures found == exists p :: p in patterns && Glob.Decide(Folded(p, fold), value)
  {
    for i := 0 to |patterns|
      invariant forall k :: 0 <= k < i ==> !Glob.Decide(Folded(patterns[k], fold), value)
    {
      var matched := Glob.Run(Folded(patterns[i], fold), value);
      if matched {
        return true;
      }
    }
    return false;
  }

  /** Statement order does not matter. */
  lemma OrderDoesNotMatter(a: seq<Statement>, b: seq<Statement>, identity: Identity, action: string, resource: string)
    requires multiset(a) == multiset(b)
    ensures Authorized(Some(a), identity, action, resource) == Authorized(Some(b), identity, action, resource)
  {
    forall s ensures s in a <==> s in b {
      assert s in multiset(a) <==> s in multiset(b);
    }
  }

  // ----- editing

  predicate ValidLabel(sid: string) {
    1 <= |sid| <= 80
    && forall c :: c in sid ==> 'a' <= c <= 'z' || 'A' <= c <= 'Z' || '0' <= c <= '9' || c == '-' || c == '_'
  }

  function PrincipalCount(items: seq<Statement>): nat {
    if items == [] then 0 else |items[0].principals| + PrincipalCount(items[1..])
  }

  function Colons(text: string): nat {
    if text == "" then 0 else (if text[0] == ':' then 1 else 0) + Colons(text[1..])
  }

  predicate ValidResource(r: string) {
    r == "*"
    || (&& StartsWith(r, "arn:aws:sqs:") && Colons(r) == 5
        && (forall i :: 0 <= i < |r| - 1 ==> !(r[i] == '$' && r[i + 1] == '{'))
        && forall c :: c in r ==> '!' <= c <= '~')
  }

  predicate ValidStatement(s: Statement) {
    && (s.sid.Some? ==> s.sid.value != "")
    && s.principals != [] && (forall p :: p in s.principals ==> ValidPrincipal(p))
    && 1 <= |s.actions| <= 7
    && (forall a :: a in s.actions ==>
          a != "" && exists i :: 0 <= i < |ACTIONS| && Glob.Decide(Lower(a), Lower("sqs:" + ACTIONS[i])))
    && s.resources != [] && (forall r :: r in s.resources ==> ValidResource(r))
  }

  ghost predicate AllValid(items: seq<Statement>) {
    forall i :: 0 <= i < |items| ==> ValidStatement(items[i])
  }

  ghost predicate DistinctLabels(items: seq<Statement>) {
    forall i, j :: 0 <= i < j < |items| && items[i].sid.Some? ==> items[i].sid != items[j].sid
  }

  /** The limits of `parse_policy` on the statements. */
  ghost predicate Parses(items: seq<Statement>) {
    |items| <= 20 && PrincipalCount(items) <= 50 && AllValid(items) && DistinctLabels(items)
  }

  predicate HasLabel(items: seq<Statement>, sid: string) {
    exists i :: 0 <= i < |items| && items[i].sid == Some(sid)
  }

  predicate GrantableAccounts(accounts: seq<string>) {
    accounts != [] && forall a :: a in accounts ==> Account(a)
  }

  predicate GrantableActions(actions: seq<string>) {
    1 <= |actions| <= 7 && forall a :: a in actions ==> a == "*" || a in ACTIONS
  }

  function Prefixed(actions: seq<string>): (r: seq<string>)
    ensures |r| == |actions| && forall i :: 0 <= i < |actions| ==> r[i] == "sqs:" + actions[i]
  {
    if actions == [] then [] else ["sqs:" + actions[0]] + Prefixed(actions[1..])
  }

  function Grant(queue: string, sid: string, accounts: seq<string>, actions: seq<string>): Statement {
    Statement(Some(sid), Allow, accounts, Prefixed(actions), [LOCAL_QUEUE_ARN_PREFIX + queue])
  }

  /** `add_permission`; None stands for its errors. */
  ghost function AddPermission(existing: Option<seq<Statement>>, queue: string, sid: string, accounts: seq<string>, actions: seq<string>)
      : Option<seq<Statement>> {
    if !ValidLabel(sid) || !GrantableAccounts(accounts) || !GrantableActions(actions) then None
    else if existing.Some? && !Parses(existing.value) then None
    else
      var items := existing.GetOr([]);
      var granted := items + [Grant(queue, sid, accounts, actions)];
      if HasLabel(items, sid) || !Parses(granted) then None else Some(granted)
  }

  function Without(items: seq<Statement>, sid: string): seq<Statement> {
    if items == [] then []
    else (if items[0].sid == Some(sid) then [] else [items[0]]) + Without(items[1..], sid)
  }

  /** `remove_permission` on a policy that parses. */
  function RemovePermission(existing: Option<seq<Statement>>, sid: string): Option<seq<Statement>> {
    if existing.None? then None else Some(Without(existing.value, sid))
  }

  // ----- what a grant adds

  predicate Plain(text: string) {
    '*' !in text && '?' !in text
  }

  /** The same letters, capital or not, and the same other characters. */
  predicate SameUpToCase(a: string, b: string) {
    |a| == |b| && forall i :: 0 <= i < |a| ==> SameLetter(a[i], b[i])
  }

  predicate SameLetter(c: char, d: char) {
    || c == d
    || ('A' <= c <= 'Z' && d as int == c as int + 32)
    || ('A' <= d <= 'Z' && c as int == d as int + 32)
  }

  lemma LettersFold(c: char, d: char)
    ensures LowerChar(c) == LowerChar(d) <==> SameLetter(c, d)
  {
  }

  lemma LowerIgnoresCase(a: string, b: string)
    ensures Lower(a) == Lower(b) <==> SameUpToCase(a, b)
  {
    if |a| == |b| {
      forall i | 0 <= i < |a| ensures Lower(a)[i] == Lower(b)[i] <==> SameLetter(a[i], b[i]) { LettersFold(a[i], b[i]); }
    }
  }

  /** The request falls under the grant: the account, the action and exactly this queue. */
  predicate Granted(queue: string, accounts: seq<string>, actions: seq<string>, identity: Identity, action: string, resource: string) {
    && identity.Aws? && IdentityAccount(identity.value) in accounts
    && (exists a :: a in actions && (a == "*" || SameUpToCase(a, PermissionAction(action))))
    && resource == "arn:aws:sqs:us-east-1:000000000000:" + queue
  }

  /** An account id as principal matches exactly the identities of that account. */
  lemma AccountPrincipal(a: string, identity: Identity)
    requires Account(a)
    ensures PrincipalMatches(a, identity) <==> identity.Aws? && IdentityAccount(identity.value) == a
  {
  }

  lemma {:induction false} ColonAfter(head: string, rest: string)
    requires ':' !in head
    ensures ColonAt(head + ":" + rest) == |head|
  {
    var text := head + ":" + rest;
    if head != "" {
      assert text[0] == head[0] && head[0] in head;
      assert text[1..] == head[1..] + ":" + rest;
      ColonAfter(head[1..], rest);
    }
  }

  /** The field before a colon. */
  lemma SplitField(head: string, rest: string, n: nat)
    requires ':' !in head && n > 1
    ensures SplitN(head + ":" + rest, n) == [head] + SplitN(rest, n - 1)
  {
    ColonAfter(head, rest);
    var text := head + ":" + rest;
    assert text[..|head|] == head && text[|head| + 1..] == rest;
  }

  function Joined(fields: seq<string>, rest: string): string {
    if fields == [] then rest else fields[0] + ":" + Joined(fields[1..], rest)
  }

  /** Splitting undoes joining, the last field apart from its colons. */
  lemma {:induction false} SplitJoined(fields: seq<string>, rest: string)
    requires forall i :: 0 <= i < |fields| ==> ':' !in fields[i]
    ensures SplitN(Joined(fields, rest), |fields| + 1) == fields + [rest]
  {
    if fields != [] {
      SplitJoined(fields[1..], rest);
      SplitField(fields[0], Joined(fields[1..], rest), |fields| + 1);
      assert fields == [fields[0]] + fields[1..];
    }
  }

  lemma IamFields(fields: seq<string>, a: string, rest: string)
    requires fields == ["arn", "aws", "iam", "", a]
    ensures "arn:aws:iam::" + a + ":" + rest == Joined(fields, rest)
  {
    var last := a + ":" + rest;
    assert Joined(fields[4..], rest) == last by { assert fields[4..][1..] == []; }
    assert Joined(fields[3..], rest) == "" + ":" + last by { assert fields[3..][1..] == fields[4..]; }
    assert Joined(fields[2..], rest) == "iam" + ":" + ("" + ":" + last) by { assert fields[2..][1..] == fields[3..]; }
    assert Joined(fields[1..], rest) == "aws" + ":" + ("iam" + ":" + ("" + ":" + last)) by { assert fields[1..][1..] == fields[2..]; }
    assert "arn:aws:iam::" + last == "arn" + ":" + ("aws" + ":" + ("iam" + ":" + ("" + ":" + last)));
    assert "arn:aws:iam::" + a + ":" + rest == "arn:aws:iam::" + last;
  }

  /** The account of an IAM identity is the field its ARN carries it in. */
  lemma ArnAccount(a: string, rest: string)
    requires Account(a)
    ensures IdentityAccount("arn:aws:iam::" + a + ":" + rest) == a
  {
    var iam := "arn:aws:iam::" + a + ":" + rest;
    var fields := ["arn", "aws", "iam", "", a];
    IamFields(fields, a, rest);
    SplitJoined(fields, rest);
    assert iam[0] == 'a' && iam[0] in iam;
  }

  /** The root of an account as principal matches exactly the identities of that account. */
  lemma RootPrincipal(a: string, identity: Identity)
    requires Account(a)
    ensures PrincipalMatches("arn:aws:iam::" + a + ":root", identity)
            <==> identity.Aws? && IdentityAccount(identity.value) == a
  {
    var root := "arn:aws:iam::" + a + ":root";
    assert root == "arn:aws:iam::" + a + ":" + "root";
    ArnAccount(a, "root");
    assert root[0] == 'a' && root[0] in root;
    if identity.Aws? {
      var account := IdentityAccount(identity.value);
      var other := "arn:aws:iam::" + account + ":root";
      if other == root {
        assert account == other[13..13 + |account|] && a == root[13..13 + |a|];
      }
    }
  }

  predicate TwelveDigits(text: string) {
    |text| == 12 && forall i :: 0 <= i < 12 ==> '0' <= text[i] <= '9'
  }

  lemma AccountsAreTwelveDigits(text: string)
    ensures Account(text) <==> TwelveDigits(text)
  {
    if TwelveDigits(text) {
      forall c | c in text ensures '0' <= c <= '9' {}
    }
    if Account(text) {
      forall i | 0 <= i < 12 ensures '0' <= text[i] <= '9' { assert text[i] in text; }
    }
  }

  /**
    * Whom a principal names. An anonymous caller is named by `*` alone. A caller of account a, be it the account
    * itself or a user or role of it, is named by `*`, by its own name, by the account and by the account's root; by
    * nothing else.
    */
  lemma PrincipalsNameExactly(principal: string, a: string, rest: string)
    requires TwelveDigits(a)
    ensures var root := "arn:aws:iam::" + a + ":root";
            var caller := "arn:aws:iam::" + a + ":" + rest;
            && (PrincipalMatches(principal, Anonymous) <==> principal == "*")
            && (PrincipalMatches(principal, Aws(a)) <==> principal in {"*", a, root})
            && (PrincipalMatches(principal, Aws(caller)) <==> principal in {"*", caller, a, root})
  {
    AccountsAreTwelveDigits(a);
    ArnAccount(a, rest);
  }

  lemma SameNameDecidesAlike(policy: Option<seq<Statement>>, identity: Identity, a: string, b: string, resource: string)
    requires ActionName(a) == ActionName(b)
    ensures Authorized(policy, identity, a, resource) == Authorized(policy, identity, b, resource)
  {
    if policy.Some? {
      assert forall s :: s in policy.value ==> Applies(s, identity, a, resource) == Applies(s, identity, b, resource);
    }
  }

  lemma BatchesAreTheirAction()
    ensures PermissionAction("SendMessageBatch") == PermissionAction("SendMessage") == "SendMessage"
    ensures PermissionAction("DeleteMessageBatch") == PermissionAction("DeleteMessage") == "DeleteMessage"
    ensures PermissionAction("ChangeMessageVisibilityBatch") == PermissionAction("ChangeMessageVisibility") == "ChangeMessageVisibility"
  {
  }

  /** A batch of sends, deletions or visibility changes is decided like the single operation. */
  lemma BatchesDecideAlike(policy: Option<seq<Statement>>, identity: Identity, resource: string)
    ensures Authorized(policy, identity, "SendMessageBatch", resource) == Authorized(policy, identity, "SendMessage", resource)
    ensures Authorized(policy, identity, "DeleteMessageBatch", resource) == Authorized(policy, identity, "DeleteMessage", resource)
    ensures Authorized(policy, identity, "ChangeMessageVisibilityBatch", resource)
         == Authorized(policy, identity, "ChangeMessageVisibility", resource)
  {
    BatchesAreTheirAction();
    SameNameDecidesAlike(policy, identity, "SendMessageBatch", "SendMessage", resource);
    SameNameDecidesAlike(policy, identity, "DeleteMessageBatch", "DeleteMessage", resource);
    SameNameDecidesAlike(policy, identity, "ChangeMessageVisibilityBatch", "ChangeMessageVisibility", resource);
  }

  lemma LowerAppend(a: string, b: string)
    ensures Lower(a + b) == Lower(a) + Lower(b)
  {
  }

  lemma PermissionActionsArePlain()
    ensures Plain("AddPermission") && Plain("RemovePermission") && Plain("CreateQueue") && Plain("DeleteQueue")
  {
  }

  lemma ReadingActionsArePlain()
    ensures Plain("GetQueueAttributes") && Plain("GetQueueUrl") && Plain("ListQueues") && Plain("ListQueueTags")
  {
  }

  lemma MessageActionsArePlain()
    ensures Plain("PurgeQueue") && Plain("ReceiveMessage") && Plain("SendMessage") && Plain("DeleteMessage")
  {
  }

  lemma SettingActionsArePlain()
    ensures Plain("ChangeMessageVisibility") && Plain("SetQueueAttributes") && Plain("TagQueue") && Plain("UntagQueue")
  {
  }

  lemma SourceActionsArePlain()
    ensures Plain("ListDeadLetterSourceQueues") && Plain("StartMessageMoveTask")
  {
  }

  lemma TaskActionsArePlain()
    ensures Plain("CancelMessageMoveTask") && Plain("ListMessageMoveTasks")
  {
  }

  lemma ActionsArePlain(a: string)
    requires a in ACTIONS
    ensures Plain(a)
  {
    PermissionActionsArePlain();
    ReadingActionsArePlain();
    MessageActionsArePlain();
    SettingActionsArePlain();
    SourceActionsArePlain();
    TaskActionsArePlain();
  }

  lemma PrefixIsPlain()
    ensures Plain(LOCAL_QUEUE_ARN_PREFIX)
  {
  }

  lemma LowerKeepsPlain(a: string)
    ensures '*' in Lower(a) ==> '*' in a
    ensures Plain(a) ==> Plain(Lower(a))
  {
  }

  lemma PlainAppend(a: string, b: string)
    requires Plain(a) && Plain(b)
    ensures Plain(a + b)
  {
  }

  /** A granted action matches itself, up to case; `*` matches every action. */
  lemma GrantedAction(a: string, action: string)
    requires (a == "*" || a in ACTIONS) && '*' !in action
    ensures Glob.Decide(Lower("sqs:" + a), ActionName(action)) <==> a == "*" || SameUpToCase(a, PermissionAction(action))
  {
    var name := PermissionAction(action);
    LowerIgnoresCase(a, name);
    LowerAppend("sqs:", a);
    LowerAppend("sqs:", name);
    var head := Lower("sqs:");
    SqsIsLower();
    if a == "*" {
      LowerKeepsPlain(name);
      StarAfter(head, Lower(name));
    } else {
      ActionsArePlain(a);
      LowerKeepsPlain(a);
      PlainAppend(head, Lower(a));
      Glob.PlainPattern(head + Lower(a), head + Lower(name));
      assert (head + Lower(a))[4..] == Lower(a) && (head + Lower(name))[4..] == Lower(name);
    }
  }

  lemma SqsIsLower()
    ensures Lower("sqs:") == "sqs:" && Plain("sqs:") && Lower("*") == "*"
  {
  }

  lemma StarAfter(head: string, rest: string)
    requires '*' !in head && '*' !in rest
    ensures Glob.Decide(head + "*", head + rest)
  {
    Glob.DecideIsMatches(head + "*", head + rest);
    assert (head + rest)[..|head|] == head && (head + rest)[|head|..] == rest;
    Glob.SegmentConsumes(head, "*", head + rest);
    Glob.StarMatchesAll(rest);
  }

  /** The statement of a grant applies to exactly the requests it names. */
  lemma GrantApplies(
      queue: string, sid: string, accounts: seq<string>, actions: seq<string>, identity: Identity, action: string, resource: string)
    requires GrantableAccounts(accounts) && GrantableActions(actions) && Plain(queue) && '*' !in action
    ensures Applies(Grant(queue, sid, accounts, actions), identity, action, resource)
            <==> Granted(queue, accounts, actions, identity, action, resource)
  {
    var s := Grant(queue, sid, accounts, actions);
    GrantedAccounts(accounts, identity);
    GrantedActions(actions, action);
    PrefixIsPlain();
    PlainAppend(LOCAL_QUEUE_ARN_PREFIX, queue);
    Glob.PlainPattern(LOCAL_QUEUE_ARN_PREFIX + queue, resource);
    assert s.resources[0] in s.resources;
  }

  lemma GrantedAccounts(accounts: seq<string>, identity: Identity)
    requires forall a :: a in accounts ==> Account(a)
    ensures (exists p :: p in accounts && PrincipalMatches(p, identity))
            <==> identity.Aws? && IdentityAccount(identity.value) in accounts
  {
  }

  lemma GrantedActions(actions: seq<string>, action: string)
    requires '*' !in action && forall a :: a in actions ==> a == "*" || a in ACTIONS
    ensures (exists a :: a in Prefixed(actions) && Glob.Decide(Lower(a), ActionName(action)))
            <==> exists a :: a in actions && (a == "*" || SameUpToCase(a, PermissionAction(action)))
  {
    var named := Prefixed(actions);
    if a :| a in named && Glob.Decide(Lower(a), ActionName(action)) {
      var i :| 0 <= i < |actions| && named[i] == a;
      assert actions[i] in actions;
      GrantedAction(actions[i], action);
    }
    if a :| a in actions && (a == "*" || SameUpToCase(a, PermissionAction(action))) {
      var i :| 0 <= i < |actions| && actions[i] == a;
      GrantedAction(a, action);
      assert named[i] in named;
    }
  }

  lemma AppendApplies(items: seq<Statement>, s: Statement, effect: Effect, identity: Identity, action: string, resource: string)
    ensures SomeApplies(items + [s], effect, identity, action, resource)
            <==> SomeApplies(items, effect, identity, action, resource)
                 || (s.effect == effect && Applies(s, identity, action, resource))
  {
  }

  /**
    * After a grant the decision is what the present policy decided, plus exactly the granted requests, unless a
    * Deny of the present policy applies. A queue without a policy was open; its first grant closes it to all others.
    */
  lemma AddPermissionGrants(
      existing: Option<seq<Statement>>, queue: string, sid: string, accounts: seq<string>, actions: seq<string>,
      identity: Identity, action: string, resource: string)
    requires Plain(queue) && '*' !in action
    requires AddPermission(existing, queue, sid, accounts, actions).Some?
    ensures var granted := Granted(queue, accounts, actions, identity, action, resource);
            Authorized(AddPermission(existing, queue, sid, accounts, actions), identity, action, resource)
            <==> if existing.None? then granted
                 else Authorized(existing, identity, action, resource)
                      || (granted && !SomeApplies(existing.value, Deny, identity, action, resource))
  {
    var items := existing.GetOr([]);
    GrantApplies(queue, sid, accounts, actions, identity, action, resource);
    AppendApplies(items, Grant(queue, sid, accounts, actions), Allow, identity, action, resource);
    AppendApplies(items, Grant(queue, sid, accounts, actions), Deny, identity, action, resource);
  }

  lemma {:induction false} WithoutAbsent(items: seq<Statement>, sid: string)
    requires !HasLabel(items, sid)
    ensures Without(items, sid) == items
  {
    if items != [] {
      forall i | 0 <= i < |items[1..]| ensures items[1..][i].sid != Some(sid) { assert items[1..][i] == items[i + 1]; }
      assert items[0].sid != Some(sid);
      WithoutAbsent(items[1..], sid);
    }
  }

  lemma {:induction false} WithoutAppend(a: seq<Statement>, b: seq<Statement>, sid: string)
    ensures Without(a + b, sid) == Without(a, sid) + Without(b, sid)
  {
    if a == [] {
      assert a + b == b;
    } else {
      assert (a + b)[0] == a[0] && (a + b)[1..] == a[1..] + b;
      WithoutAppend(a[1..], b, sid);
    }
  }

  /** Removing a grant gives back the statements the policy had before it. */
  lemma RemoveUndoesAdd(existing: Option<seq<Statement>>, queue: string, sid: string, accounts: seq<string>, actions: seq<string>)
    requires AddPermission(existing, queue, sid, accounts, actions).Some?
    ensures RemovePermission(AddPermission(existing, queue, sid, accounts, actions), sid) == Some(existing.GetOr([]))
  {
    var items := existing.GetOr([]);
    var s := Grant(queue, sid, accounts, actions);
    WithoutAppend(items, [s], sid);
    assert Without([s], sid) == [] by { assert [s][1..] == []; }
    assert items + [] == items;
    WithoutAbsent(items, sid);
  }

  /** So the decisions are restored exactly for a policy that was present: an open queue stays closed to everyone. */
  lemma RemoveRestoresDecisions(
      existing: Option<seq<Statement>>, queue: string, sid: string, accounts: seq<string>, actions: seq<string>)
    requires AddPermission(existing, queue, sid, accounts, actions).Some?
    ensures (forall identity, action, resource ::
               Authorized(RemovePermission(AddPermission(existing, queue, sid, accounts, actions), sid), identity, action, resource)
               == Authorized(existing, identity, action, resource))
            <==> existing.Some?
  {
    RemoveUndoesAdd(existing, queue, sid, accounts, actions);
    var after := RemovePermission(AddPermission(existing, queue, sid, accounts, actions), sid);
    if existing.None? {
      assert Authorized(existing, Anonymous, "", "") && !Authorized(after, Anonymous, "", "");
    }
  }

  /** Removing a label keeps every other statement in place, and no statement keeps the label. */
  lemma {:induction false} WithoutKeepsOthers(items: seq<Statement>, sid: string)
    ensures !HasLabel(Without(items, sid), sid)
    ensures forall s :: s in items && s.sid != Some(sid) ==> s in Without(items, sid)
    ensures forall s :: s in Without(items, sid) ==> s in items
  {
    if items != [] {
      WithoutKeepsOthers(items[1..], sid);
      assert items == [items[0]] + items[1..];
    }
  }
}
