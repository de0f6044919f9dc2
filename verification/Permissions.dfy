/** When a permission can be added: the statement of a grant always passes the limits of a policy, which are all that can stop it. */
module Permissions {
  import opened Identifiers
  import opened AccessPolicy

  /** The characters the HTTP layer admits in a queue name. */
  predicate NameChars(queue: string) {
    forall c :: c in queue ==> 'a' <= c <= 'z' || 'A' <= c <= 'Z' || '0' <= c <= '9' || c == '-' || c == '_' || c == '.'
  }

  // ----- the resource

  lemma {:induction false} ColonsAppend(a: string, b: string)
    ensures Colons(a + b) == Colons(a) + Colons(b)
  {
    if a == "" {
      assert a + b == b;
    } else {
      assert (a + b)[0] == a[0] && (a + b)[1..] == a[1..] + b;
      ColonsAppend(a[1..], b);
    }
  }

  lemma {:induction false} NoColons(text: string)
    requires ':' !in text
    ensures Colons(text) == 0
  {
    if text != "" {
      assert text[0] in text;
      NoColons(text[1..]);
    }
  }

  /** One colon behind each field. */
  lemma {:induction false} JoinedColons(fields: seq<string>, rest: string)
    requires ':' !in rest && forall i :: 0 <= i < |fields| ==> ':' !in fields[i]
    ensures Colons(Joined(fields, rest)) == |fields|
  {
    if fields == [] {
      NoColons(rest);
    } else {
      var tail := Joined(fields[1..], rest);
      JoinedColons(fields[1..], rest);
      ColonsAppend(fields[0] + ":", tail);
      ColonsAppend(fields[0], ":");
      NoColons(fields[0]);
      OneColon();
    }
  }

  lemma OneColon()
    ensures Colons(":") == 1
  {
    assert ":"[1..] == "";
  }

  lemma JoinedFive(fields: seq<string>, rest: string)
    requires |fields| == 5
    ensures Joined(fields, rest)
         == fields[0] + ":" + (fields[1] + ":" + (fields[2] + ":" + (fields[3] + ":" + (fields[4] + ":" + rest))))
  {
    assert fields[4..][1..] == [] && fields[3..][1..] == fields[4..] && fields[2..][1..] == fields[3..] && fields[1..][1..] == fields[2..];
    assert Joined(fields[4..], rest) == fields[4] + ":" + rest;
    assert Joined(fields[3..], rest) == fields[3] + ":" + Joined(fields[4..], rest);
    assert Joined(fields[2..], rest) == fields[2] + ":" + Joined(fields[3..], rest);
  }

  lemma FiveInFront(a: string, b: string, c: string, d: string, e: string, rest: string)
    ensures (a + ":") + (b + ":") + (c + ":") + (d + ":") + (e + ":") + rest
         == a + ":" + (b + ":" + (c + ":" + (d + ":" + (e + ":" + rest))))
  {
  }

  lemma PrefixFields()
    ensures LOCAL_QUEUE_ARN_PREFIX == ("arn" + ":") + ("aws" + ":") + ("sqs" + ":") + ("us-east-1" + ":") + ("000000000000" + ":")
  {
  }

  lemma QueueFields(queue: string)
    ensures LOCAL_QUEUE_ARN_PREFIX + queue == Joined(["arn", "aws", "sqs", "us-east-1", "000000000000"], queue)
  {
    JoinedFive(["arn", "aws", "sqs", "us-east-1", "000000000000"], queue);
    PrefixFields();
    FiveInFront("arn", "aws", "sqs", "us-east-1", "000000000000", queue);
  }

  lemma QueueColons(queue: string)
    requires ':' !in queue
    ensures Colons(LOCAL_QUEUE_ARN_PREFIX + queue) == 5
  {
    var fields := ["arn", "aws", "sqs", "us-east-1", "000000000000"];
    QueueFields(queue);
    JoinedColons(fields, queue);
  }

  predicate SafeChar(c: char) {
    '!' <= c <= '~' && c != '$'
  }

  lemma QueueChars(queue: string)
    requires NameChars(queue)
    ensures forall c :: c in LOCAL_QUEUE_ARN_PREFIX + queue ==> SafeChar(c)
  {
  }

  lemma QueueStarts(queue: string)
    ensures StartsWith(LOCAL_QUEUE_ARN_PREFIX + queue, "arn:aws:sqs:")
  {
  }

  lemma SafeText(r: string)
    requires forall c :: c in r ==> SafeChar(c)
    ensures forall i :: 0 <= i < |r| - 1 ==> !(r[i] == '$' && r[i + 1] == '{')
  {
    forall i | 0 <= i < |r| - 1 ensures SafeChar(r[i]) { assert r[i] in r; }
  }

  /** The ARN of a local queue is a valid resource. */
  lemma QueueIsResource(queue: string)
    requires NameChars(queue)
    ensures ValidResource(LOCAL_QUEUE_ARN_PREFIX + queue)
  {
    QueueStarts(queue);
    QueueColons(queue);
    QueueChars(queue);
    SafeText(LOCAL_QUEUE_ARN_PREFIX + queue);
  }

  // ----- the actions

  /** A granted action names a supported one. */
  lemma GrantedIsSupported(a: string) returns (i: nat)
    requires a == "*" || a in ACTIONS
    ensures i < |ACTIONS| && Glob.Decide(Lower("sqs:" + a), Lower("sqs:" + ACTIONS[i]))
  {
    SqsIsLower();
    LowerAppend("sqs:", a);
    if a == "*" {
      i := 0;
      ActionsArePlain(ACTIONS[0]);
      LowerKeepsPlain(ACTIONS[0]);
      LowerAppend("sqs:", ACTIONS[0]);
      StarAfter("sqs:", Lower(ACTIONS[0]));
    } else {
      i :| 0 <= i < |ACTIONS| && ACTIONS[i] == a;
      ActionsArePlain(a);
      PlainAppend("sqs:", a);
      LowerKeepsPlain("sqs:" + a);
      Glob.PlainPattern(Lower("sqs:" + a), Lower("sqs:" + a));
    }
  }

  lemma GrantIsValid(queue: string, sid: string, accounts: seq<string>, actions: seq<string>)
    requires NameChars(queue) && ValidLabel(sid) && GrantableAccounts(accounts) && GrantableActions(actions)
    ensures ValidStatement(Grant(queue, sid, accounts, actions))
  {
    var s := Grant(queue, sid, accounts, actions);
    QueueIsResource(queue);
    forall a | a in s.actions
      ensures a != "" && exists i :: 0 <= i < |ACTIONS| && Glob.Decide(Lower(a), Lower("sqs:" + ACTIONS[i]))
    {
      var k :| 0 <= k < |actions| && s.actions[k] == a;
      assert actions[k] in actions;
      var i := GrantedIsSupported(actions[k]);
    }
  }

  // ----- the limits

  lemma {:induction false} PrincipalsAppend(items: seq<Statement>, s: Statement)
    ensures PrincipalCount(items + [s]) == PrincipalCount(items) + |s.principals|
  {
    if items == [] {
      assert items + [s] == [s] && [s][1..] == [];
    } else {
      assert (items + [s])[0] == items[0] && (items + [s])[1..] == items[1..] + [s];
      PrincipalsAppend(items[1..], s);
    }
  }

  lemma AppendedLabels(items: seq<Statement>, s: Statement)
    requires DistinctLabels(items) && s.sid.Some? && !HasLabel(items, s.sid.value)
    ensures DistinctLabels(items + [s])
  {
    var more := items + [s];
    forall i, j | 0 <= i < j < |more| && more[i].sid.Some? ensures more[i].sid != more[j].sid {
      if j == |items| { assert more[i] == items[i] && items[i].sid != Some(s.sid.value); }
    }
  }

  lemma AppendedStatements(items: seq<Statement>, s: Statement)
    requires AllValid(items) && ValidStatement(s)
    ensures AllValid(items + [s])
  {
    forall i | 0 <= i < |items + [s]| ensures ValidStatement((items + [s])[i]) {
      if i < |items| { assert (items + [s])[i] == items[i]; }
    }
  }

  lemma AppendedParses(items: seq<Statement>, s: Statement)
    requires Parses(items) && ValidStatement(s) && s.sid.Some? && !HasLabel(items, s.sid.value)
    ensures Parses(items + [s]) <==> |items| < 20 && PrincipalCount(items) + |s.principals| <= 50
  {
    PrincipalsAppend(items, s);
    AppendedLabels(items, s);
    AppendedStatements(items, s);
  }

  /**
    * A permission can be added exactly when its label, accounts and actions are of the right form, no statement has
    * the label, and the policy has room: at most twenty statements and fifty principals with the new one.
    */
  lemma PermissionIsAddedExactly(existing: Option<seq<Statement>>, queue: string, sid: string, accounts: seq<string>, actions: seq<string>)
    requires NameChars(queue) && (existing.Some? ==> Parses(existing.value))
    ensures var items := if existing.Some? then existing.value else [];
            AddPermission(existing, queue, sid, accounts, actions).Some?
            <==> && ValidLabel(sid) && accounts != [] && (forall a :: a in accounts ==> TwelveDigits(a))
                 && 1 <= |actions| <= 7 && (forall a :: a in actions ==> a == "*" || a in ACTIONS)
                 && !HasLabel(items, sid) && |items| < 20 && PrincipalCount(items) + |accounts| <= 50
  {
    var items := if existing.Some? then existing.value else [];
    forall a | a in accounts ensures Account(a) <==> TwelveDigits(a) { AccountsAreTwelveDigits(a); }
    if ValidLabel(sid) && GrantableAccounts(accounts) && GrantableActions(actions) && !HasLabel(items, sid) {
      GrantIsValid(queue, sid, accounts, actions);
      AppendedParses(items, Grant(queue, sid, accounts, actions));
    }
  }
}
