/** `list_queues`: pages that follow a cursor while queues come and go. */
module Pagination {
  import opened Identifiers
  import opened Ordering

  const DEFAULT_LIMIT := 1000
  const MAX_CURSOR := 2048

  /** A cursor as the client holds it: what it decodes to, or nothing. */
  datatype Cursor = Malformed | Cursor(version: nat, prefix: string, last: string)

  datatype Page = Page(names: seq<string>, next: Option<Cursor>)

  datatype Listing = Listed(page: Page) | Invalid

  // ----- the length of an encoded cursor

  /** One character inside a JSON string. */
  function JsonChar(c: char): nat {
    if c == '"' || c == '\\' then 2
    else if c as int == 8 || c as int == 9 || c as int == 10 || c as int == 12 || c as int == 13 then 2
    else if c as int < 32 then 6
    else 1
  }

  function JsonText(s: string): nat {
    if s == "" then 0 else JsonChar(s[0]) + JsonText(s[1..])
  }

  /** `[1,"prefix","last"]` in base64 without padding (section 5 of RFC 4648). */
  function EncodedLength(c: Cursor): nat {
    if c.Malformed? then 0 else (4 * (9 + JsonText(c.prefix) + JsonText(c.last)) + 2) / 3
  }

  // ----- one page

  predicate CursorFits(c: Cursor, prefix: string) {
    && EncodedLength(c) <= MAX_CURSOR
    && c.Cursor? && c.version == 1
    && c.prefix == prefix && prefix <= c.last && c.last != ""
  }

  function Matching(names: set<string>, prefix: string, last: string): set<string> {
    set n | n in names && prefix <= n && TextLess(last, n)
  }

  function FirstNames(order: seq<string>, limit: nat): seq<string> {
    if limit < |order| then order[..limit] else order
  }

  function Query(names: set<string>, prefix: string, last: string, limit: nat): seq<string> {
    FirstNames(Alphabetical(Matching(names, prefix, last)), limit)
  }

  /** `list_queues`. */
  function ListQueues(names: set<string>, prefix: string, maximum: Option<nat>, cursor: Option<Cursor>): Listing {
    var limit := maximum.GetOr(DEFAULT_LIMIT);
    if limit < 1 || limit > 1000 then Invalid
    else if cursor.Some? && !CursorFits(cursor.value, prefix) then Invalid
    else
      var last := if cursor.Some? then cursor.value.last else "";
      var found := Query(names, prefix, last, limit + 1);
      var more := |found| > limit;
      var listed := FirstNames(found, limit);
      Listed(Page(listed, if more && maximum.Some? then Some(Cursor(1, prefix, listed[|listed| - 1])) else None))
  }

  /** A cursor for this prefix, as a page issues them: of this version, short enough, with the last name listed. */
  predicate Continues(c: Cursor, prefix: string) {
    c.Cursor? && c == Cursor(1, prefix, c.last) && prefix <= c.last && c.last != "" && EncodedLength(c) <= 2048
  }

  /** A listing is refused exactly for a maximum outside 1 to 1000 and for a cursor that does not continue this prefix. */
  lemma ListingIsRefused(names: set<string>, prefix: string, maximum: Option<nat>, cursor: Option<Cursor>)
    ensures ListQueues(names, prefix, maximum, cursor).Invalid?
            <==> (maximum.Some? && !(1 <= maximum.value <= 1000)) || (cursor.Some? && !Continues(cursor.value, prefix))
  {
  }

  lemma FirstOfFirst(order: seq<string>, limit: nat)
    ensures FirstNames(FirstNames(order, limit + 1), limit) == FirstNames(order, limit)
    ensures |FirstNames(order, limit + 1)| > limit <==> |order| > limit
  {
  }

  function MaximumOf(maximum: Option<nat>): nat {
    match maximum
    case Some(n) => n
    case None => 1000
  }

  /** What one page holds: the first matching names after the cursor, and a cursor exactly when more were left. */
  lemma PageHolds(names: set<string>, prefix: string, maximum: Option<nat>, cursor: Option<Cursor>)
    requires ListQueues(names, prefix, maximum, cursor).Listed?
    ensures var page := ListQueues(names, prefix, maximum, cursor).page;
            var last := if cursor.Some? then cursor.value.last else "";
            var order := Alphabetical(Matching(names, prefix, last));
            var limit := MaximumOf(maximum);
            && page.names == FirstNames(order, limit)
            && (page.next.Some? <==> |order| > limit && maximum.Some?)
            && (page.next.Some? ==>
                  |page.names| == limit >= 1 && page.next.value == Cursor(1, prefix, page.names[|page.names| - 1]))
  {
    var last := if cursor.Some? then cursor.value.last else "";
    FirstOfFirst(Alphabetical(Matching(names, prefix, last)), MaximumOf(maximum));
  }

  // ----- a cursor that was issued is accepted again

  /** What the HTTP layer admits as a queue name. */
  predicate QueueName(name: string) {
    1 <= |name| <= 80
    && forall i :: 0 <= i < |name| ==>
         'a' <= name[i] <= 'z' || 'A' <= name[i] <= 'Z' || '0' <= name[i] <= '9'
         || name[i] == '-' || name[i] == '_' || name[i] == '.'
  }

  lemma {:induction false} PlainJson(s: string)
    requires forall i :: 0 <= i < |s| ==> s[i] as int >= 32 && s[i] != '"' && s[i] != '\\'
    ensures JsonText(s) == |s|
  {
    if s != "" { PlainJson(s[1..]); }
  }

  /** An issued cursor stays good for its own prefix, whatever exists by then, and for no other. */
  lemma CursorIsAccepted(
      names: set<string>, prefix: string, maximum: Option<nat>, cursor: Option<Cursor>,
      later: set<string>, other: string, laterMaximum: Option<nat>)
    requires forall n :: n in names ==> QueueName(n)
    requires ListQueues(names, prefix, maximum, cursor).Listed?
    requires ListQueues(names, prefix, maximum, cursor).page.next.Some?
    requires 1 <= MaximumOf(laterMaximum) <= 1000
    ensures ListQueues(later, other, laterMaximum, ListQueues(names, prefix, maximum, cursor).page.next).Listed?
            <==> other == prefix
  {
    PageHolds(names, prefix, maximum, cursor);
    IssuedCursorFits(names, prefix, maximum, cursor, ListQueues(names, prefix, maximum, cursor).page);
  }

  lemma IssuedCursorFits(names: set<string>, prefix: string, maximum: Option<nat>, cursor: Option<Cursor>, page: Page)
    requires forall n :: n in names ==> QueueName(n)
    requires ListQueues(names, prefix, maximum, cursor) == Listed(page) && page.next.Some?
    ensures CursorFits(page.next.value, prefix)
  {
    PageHolds(names, prefix, maximum, cursor);
    var from := if cursor.Some? then cursor.value.last else "";
    PageIncreases(names, prefix, from, maximum.GetOr(DEFAULT_LIMIT));
    NameFits(prefix, page.names[|page.names| - 1]);
  }

  lemma NameFits(prefix: string, last: string)
    requires QueueName(last) && prefix <= last
    ensures CursorFits(Cursor(1, prefix, last), prefix)
  {
    assert forall i :: 0 <= i < |prefix| ==> prefix[i] == last[i];
    PlainJson(last);
    PlainJson(prefix);
  }

  // ----- following cursors

  /** One page request: the queues that exist when it runs, and the client's maximum. */
  datatype Call = Call(names: set<string>, maximum: nat)

  /** The names returned by following each issued cursor, and whether the chain ended. */
  function Follow(prefix: string, cursor: Option<Cursor>, calls: seq<Call>): (seq<string>, bool)
    decreases |calls|
  {
    if calls == [] then ([], false)
    else
      match ListQueues(calls[0].names, prefix, Some(calls[0].maximum), cursor)
      case Invalid => ([], false)
      case Listed(page) =>
        if page.next.None? then (page.names, true)
        else
          var (names, ended) := Follow(prefix, page.next, calls[1..]);
          (page.names + names, ended)
  }

  function LastOf(cursor: Option<Cursor>): string {
    if cursor.Some? && cursor.value.Cursor? then cursor.value.last else ""
  }

  /** The first page of a chain and where it continues, without the request handling around it. */
  lemma FollowStep(prefix: string, cursor: Option<Cursor>, calls: seq<Call>) returns (order: seq<string>, next: Option<Cursor>)
    requires calls != [] && ListQueues(calls[0].names, prefix, Some(calls[0].maximum), cursor).Listed?
    ensures order == Alphabetical(Matching(calls[0].names, prefix, LastOf(cursor)))
    ensures |order| <= calls[0].maximum ==> Follow(prefix, cursor, calls) == (order, true)
    ensures |order| > calls[0].maximum ==>
              && calls[0].maximum >= 1 && LastOf(next) == order[calls[0].maximum - 1]
              && Follow(prefix, cursor, calls).0 == order[..calls[0].maximum] + Follow(prefix, next, calls[1..]).0
              && Follow(prefix, cursor, calls).1 == Follow(prefix, next, calls[1..]).1
  {
    PageHolds(calls[0].names, prefix, Some(calls[0].maximum), cursor);
    order := Alphabetical(Matching(calls[0].names, prefix, LastOf(cursor)));
    next := ListQueues(calls[0].names, prefix, Some(calls[0].maximum), cursor).page.next;
  }

  /** The list of names keeps increasing over the pages. */
  lemma {:induction false} PagesIncrease(prefix: string, cursor: Option<Cursor>, calls: seq<Call>)
    ensures var names := Follow(prefix, cursor, calls).0;
            && StrictlyIncreasing(names)
            && forall i :: 0 <= i < |names| ==> TextLess(LastOf(cursor), names[i])
    decreases |calls|
  {
    if calls != [] && ListQueues(calls[0].names, prefix, Some(calls[0].maximum), cursor).Listed? {
      var order, next := FollowStep(prefix, cursor, calls);
      PageIncreases(calls[0].names, prefix, LastOf(cursor), calls[0].maximum);
      if |order| > calls[0].maximum {
        PagesIncrease(prefix, next, calls[1..]);
        Joined(LastOf(cursor), order[..calls[0].maximum], Follow(prefix, next, calls[1..]).0);
      }
    }
  }

  lemma PageIncreases(names: set<string>, prefix: string, last: string, limit: nat)
    ensures var listed := FirstNames(Alphabetical(Matching(names, prefix, last)), limit);
            && StrictlyIncreasing(listed)
            && forall i :: 0 <= i < |listed| ==> TextLess(last, listed[i]) && prefix <= listed[i] && listed[i] in names
  {
    var order := Alphabetical(Matching(names, prefix, last));
    var listed := FirstNames(order, limit);
    forall i | 0 <= i < |listed| ensures TextLess(last, listed[i]) && prefix <= listed[i] && listed[i] in names {
      assert order[i] in order;
      assert order[i] in Matching(names, prefix, last);
    }
  }

  lemma Joined(last: string, front: seq<string>, back: seq<string>)
    requires StrictlyIncreasing(front) && StrictlyIncreasing(back) && front != []
    requires forall i :: 0 <= i < |front| ==> TextLess(last, front[i])
    requires forall i :: 0 <= i < |back| ==> TextLess(front[|front| - 1], back[i])
    ensures StrictlyIncreasing(front + back)
    ensures forall i :: 0 <= i < |front + back| ==> TextLess(last, (front + back)[i])
  {
    var m := |front|;
    forall i, j | 0 <= i < j < |front + back| ensures TextLess((front + back)[i], (front + back)[j]) {
      if i < m <= j && i < m - 1 {
        TextLessTransitive(front[i], front[m - 1], back[j - m]);
      }
    }
    forall i | m <= i < |front + back| ensures TextLess(last, (front + back)[i]) {
      TextLessTransitive(last, front[m - 1], back[i - m]);
    }
  }

  /** A matching name is on the page or after its last name. */
  lemma OnPageOrAfter(names: set<string>, prefix: string, last: string, limit: nat, name: string)
    requires name in names && prefix <= name && TextLess(last, name)
    ensures var order := Alphabetical(Matching(names, prefix, last));
            && name in order
            && (1 <= limit < |order| ==> name in order[..limit] || TextLess(order[limit - 1], name))
  {
  }

  /** A name after the cursor that exists at every page query is listed once the chain ends. */
  lemma {:induction false} NothingIsMissed(prefix: string, cursor: Option<Cursor>, calls: seq<Call>, name: string)
    requires Follow(prefix, cursor, calls).1
    requires prefix <= name && TextLess(LastOf(cursor), name)
    requires forall i :: 0 <= i < |calls| ==> name in calls[i].names
    ensures name in Follow(prefix, cursor, calls).0
    decreases |calls|
  {
    var order, next := FollowStep(prefix, cursor, calls);
    OnPageOrAfter(calls[0].names, prefix, LastOf(cursor), calls[0].maximum, name);
    if |order| > calls[0].maximum && name !in order[..calls[0].maximum] {
      NothingIsMissed(prefix, next, calls[1..], name);
    }
  }

  ghost predicate ListedOnlyAt(names: seq<string>, name: string, k: nat) {
    k < |names| && forall i :: 0 <= i < |names| ==> (names[i] == name <==> i == k)
  }

  /** Under churn: every matching name that stays is listed exactly once, and the list is increasing. */
  lemma StableNamesAppearOnce(prefix: string, calls: seq<Call>, name: string)
    requires Follow(prefix, None, calls).1
    requires name != "" && prefix <= name && forall i :: 0 <= i < |calls| ==> name in calls[i].names
    ensures var names := Follow(prefix, None, calls).0;
            StrictlyIncreasing(names) && exists k :: ListedOnlyAt(names, name, k)
  {
    var names := Follow(prefix, None, calls).0;
    PagesIncrease(prefix, None, calls);
    NothingIsMissed(prefix, None, calls, name);
    var k :| 0 <= k < |names| && names[k] == name;
    forall i | 0 <= i < |names| ensures names[i] == name <==> i == k {
      TextLessTotal(names[i], name);
    }
    assert ListedOnlyAt(names, name, k);
  }

  /** Every listed name matched and existed at the query of some page. */
  lemma {:induction false} ListedNamesExisted(prefix: string, cursor: Option<Cursor>, calls: seq<Call>, name: string)
    requires name in Follow(prefix, cursor, calls).0
    ensures prefix <= name && exists i :: 0 <= i < |calls| && name in calls[i].names
    decreases |calls|
  {
    var limit := calls[0].maximum;
    var order, next := FollowStep(prefix, cursor, calls);
    if name in order {
      assert name in Matching(calls[0].names, prefix, LastOf(cursor));
    } else {
      ListedNamesExisted(prefix, next, calls[1..], name);
      var i :| 0 <= i < |calls[1..]| && name in calls[1..][i].names;
      assert calls[i + 1] == calls[1..][i];
    }
  }

  /** Without a maximum no cursor is issued: the page is the whole answer exactly when 1000 names suffice. */
  lemma DefaultPageIsWhole(names: set<string>, prefix: string)
    ensures var listing := ListQueues(names, prefix, None, None);
            && listing.Listed? && listing.page.next.None?
            && ((forall n :: n in Matching(names, prefix, "") ==> n in listing.page.names)
                <==> |Matching(names, prefix, "")| <= 1000)
  {
    PageHolds(names, prefix, None, None);
    var matching := Matching(names, prefix, "");
    var order := Alphabetical(matching);
    var listed := ListQueues(names, prefix, None, None).page.names;
    if |matching| > 1000 {
      var n := order[1000];
      assert n in order;
      TextLessTotal(n, n);
      forall i | 0 <= i < |listed| ensures listed[i] != n { assert TextLess(order[i], n); }
    }
  }
}
