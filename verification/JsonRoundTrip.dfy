/**
 What canonical JSON promises: the text parses back to the value it was made from, equal texts mean
 equal values up to member order, and canonicalising again changes nothing.
 */
module JsonRoundTrip {
  import opened Wrappers
  import opened Json

  /******* Parsing the canonical text *******/

  lemma {:induction false} CanonicalHead(v: Json, num: Text -> Json)
    requires Wf(v, num)
    ensures Canonical(v) != []
    ensures !IsSpace(Canonical(v)[0]) && Canonical(v)[0] != RBRACKET
  {
    if v.Num? {
      var u := if v.text != [] && v.text[0] == MINUS then v.text[1..] else v.text;
      assert DigitRun(u) > 0;
    }
  }

  lemma {:induction false} ParseCanonicalValue(v: Json, rest: Text, num: Text -> Json)
    requires Wf(v, num) && Terminated(rest)
    ensures ParseValue(Canonical(v) + rest, num) == Some((Normal(v), rest))
    decreases Size(v), 0
  {
    match v
    case Num(t) => ParseCanonicalNumber(t, rest, num);
    case Str(u) => ParseCanonicalString(u, rest, num);
    case Arr(items) => ParseCanonicalArray(items, rest, num);
    case Obj(ms) => ParseCanonicalObject(ms, rest, num);
    case _ => ParseCanonicalWord(v, rest, num);
  }

  lemma {:induction false} ParseCanonicalString(u: Text, rest: Text, num: Text -> Json)
    ensures ParseValue(Canonical(Str(u)) + rest, num) == Some((Str(u), rest))
  {
    var s := Canonical(Str(u)) + rest;
    assert s[1..] == Escape(u) + ([QUOTE] + rest);
    ParseEscaped(u, rest);
  }

  lemma {:induction false} ParseCanonicalWord(v: Json, rest: Text, num: Text -> Json)
    requires v.Null? || v.Infinite? || v.Bool?
    ensures ParseValue(Canonical(v) + rest, num) == Some((Normal(v), rest))
  {
    var w := Canonical(v);
    var s := w + rest;
    assert w <= s && s[|w|..] == rest && s[0] == w[0];
    assert w != NULL_TEXT ==> !(NULL_TEXT <= s) by {
      assert NULL_TEXT <= s ==> NULL_TEXT[0] == s[0];
    }
    assert w == FALSE_TEXT ==> !(TRUE_TEXT <= s) by {
      assert TRUE_TEXT <= s ==> TRUE_TEXT[0] == s[0];
    }
  }

  lemma {:induction false} OpenArray(body: Text, num: Text -> Json)
    requires body != [] && !IsSpace(body[0])
    ensures ParseValue([LBRACKET] + body, num)
         == if body[0] == RBRACKET then Some((Arr([]), body[1..])) else ParseItems(body, [], num)
  {
    assert ([LBRACKET] + body)[1..] == body;
  }

  lemma {:induction false} OpenObject(body: Text, num: Text -> Json)
    requires body != [] && !IsSpace(body[0])
    ensures ParseValue([LBRACE] + body, num)
         == if body[0] == RBRACE then Some((Obj([]), body[1..])) else ParseMembers(body, [], num)
  {
    assert ([LBRACE] + body)[1..] == body;
  }

  lemma {:induction false} ParseCanonicalArray(items: seq<Json>, rest: Text, num: Text -> Json)
    requires forall i :: 0 <= i < |items| ==> Wf(items[i], num)
    ensures ParseValue(Canonical(Arr(items)) + rest, num) == Some((Normal(Arr(items)), rest))
    decreases ItemsSize(items), 1
  {
    var inner := CanonicalItems(items);
    var body := inner + ([RBRACKET] + rest);
    assert Canonical(Arr(items)) + rest == [LBRACKET] + body;
    if items == [] {
      assert body == [RBRACKET] + rest && body[1..] == rest;
    } else {
      CanonicalHead(items[0], num);
      assert body[0] == Canonical(items[0])[0];
      ParseCanonicalItems(items, [], rest, num);
      assert [] + NormalItems(items) == NormalItems(items);
    }
    OpenArray(body, num);
  }

  lemma {:induction false} ParseCanonicalObject(ms: seq<Member>, rest: Text, num: Text -> Json)
    requires WfMembers(ms, num)
    ensures ParseValue(Canonical(Obj(ms)) + rest, num) == Some((Normal(Obj(ms)), rest))
    decreases MembersSize(ms), 2
  {
    SortedWf(ms, num);
    ParseObjectBody(SortMembers(ms), rest, num);
  }

  lemma {:induction false} ParseObjectBody(ms: seq<Member>, rest: Text, num: Text -> Json)
    requires WfMembers(ms, num)
    ensures ParseValue([LBRACE] + CanonicalMembers(ms) + [RBRACE] + rest, num) == Some((Obj(NormalMembers(ms)), rest))
    decreases MembersSize(ms), 1
  {
    var inner := CanonicalMembers(ms);
    var body := inner + ([RBRACE] + rest);
    assert [LBRACE] + inner + [RBRACE] + rest == [LBRACE] + body;
    if ms == [] {
      assert body == [RBRACE] + rest && body[1..] == rest;
    } else {
      CanonicalMembersHead(ms);
      assert body[0] == QUOTE;
      ParseCanonicalMembers(ms, [], rest, num);
      assert [] + NormalMembers(ms) == NormalMembers(ms);
    }
    OpenObject(body, num);
  }

  lemma {:induction false} CanonicalMembersHead(ms: seq<Member>)
    requires ms != []
    ensures CanonicalMembers(ms) != [] && CanonicalMembers(ms)[0] == QUOTE
  {
    assert MemberText(ms[0])[0] == QUOTE;
  }

  lemma {:induction false} ParseCanonicalNumber(t: Text, rest: Text, num: Text -> Json)
    requires IsNumberToken(t) && num(t) == Num(t) && Terminated(rest)
    ensures ParseValue(t + rest, num) == Some((Num(t), rest))
  {
    var s := t + rest;
    NumberRunOf(t, rest);
    var u := if t[0] == MINUS then t[1..] else t;
    assert IsDigit(u[0]);
    assert s[0] == t[0] && (IsDigit(t[0]) || t[0] == MINUS);
    assert SkipSpace(s) == s;
    assert s[..|t|] == t && s[|t|..] == rest;
    assert !(NULL_TEXT <= s) && !(TRUE_TEXT <= s) && !(FALSE_TEXT <= s) by {
      assert NULL_TEXT[0] != s[0] && TRUE_TEXT[0] != s[0] && FALSE_TEXT[0] != s[0];
    }
  }

  lemma {:induction false} ItemStep(text: Text, n: Json, d: Unit, tail: Text, seen: seq<Json>, num: Text -> Json)
    requires ParseValue(text + ([d] + tail), num) == Some((n, [d] + tail))
    requires d == COMMA || d == RBRACKET
    ensures ParseItems(text + ([d] + tail), seen, num)
         == if d == COMMA then ParseItems(tail, seen + [n], num) else Some((Arr(seen + [n]), tail))
  {
    assert ([d] + tail)[1..] == tail;
  }

  ghost predicate WfItems(items: seq<Json>, num: Text -> Json) {
    forall i :: 0 <= i < |items| ==> Wf(items[i], num)
  }

  lemma {:induction false} ParseFirstItem(v: Json, d: Unit, tail: Text, seen: seq<Json>, num: Text -> Json)
    requires Wf(v, num)
    requires d == COMMA || d == RBRACKET
    ensures ParseItems(Canonical(v) + ([d] + tail), seen, num)
         == if d == COMMA then ParseItems(tail, seen + [Normal(v)], num) else Some((Arr(seen + [Normal(v)]), tail))
    decreases Size(v), 1
  {
    ParseCanonicalValue(v, [d] + tail, num);
    ItemStep(Canonical(v), Normal(v), d, tail, seen, num);
  }

  lemma {:induction false} ParseCanonicalItems(items: seq<Json>, seen: seq<Json>, rest: Text, num: Text -> Json)
    requires items != [] && WfItems(items, num)
    ensures ParseItems(CanonicalItems(items) + ([RBRACKET] + rest), seen, num)
         == Some((Arr(seen + NormalItems(items)), rest))
    decreases ItemsSize(items), 0
  {
    NormalItemsTail(seen, items);
    if |items| == 1 {
      ParseFirstItem(items[0], RBRACKET, rest, seen, num);
    } else {
      ParseFirstItem(items[0], COMMA, CanonicalItems(items[1..]) + ([RBRACKET] + rest), seen, num);
      CanonicalItemsCons(items, [RBRACKET] + rest);
      WfItemsTail(items, num);
      ParseCanonicalItems(items[1..], seen + [Normal(items[0])], rest, num);
    }
  }

  lemma {:induction false} CanonicalItemsCons(items: seq<Json>, after: Text)
    requires |items| > 1
    ensures CanonicalItems(items) + after == Canonical(items[0]) + ([COMMA] + (CanonicalItems(items[1..]) + after))
  {
    ListRegroup(Canonical(items[0]), CanonicalItems(items[1..]), after);
  }

  lemma {:induction false} WfItemsTail(items: seq<Json>, num: Text -> Json)
    requires items != [] && WfItems(items, num)
    ensures WfItems(items[1..], num)
  {
    forall i | 0 <= i < |items[1..]| ensures Wf(items[1..][i], num) {
      assert items[1..][i] == items[i + 1];
    }
  }

  lemma {:induction false} NormalItemsTail(seen: seq<Json>, items: seq<Json>)
    requires items != []
    ensures seen + [Normal(items[0])] + NormalItems(items[1..]) == seen + NormalItems(items)
    ensures |items| == 1 ==> seen + [Normal(items[0])] == seen + NormalItems(items)
  {
    var one, more := [Normal(items[0])], NormalItems(items[1..]);
    assert seen + one + more == seen + (one + more);
  }

  lemma {:induction false} MemberStep(
    k: Text, text: Text, n: Json, d: Unit, tail: Text, seen: seq<Member>, num: Text -> Json)
    requires ParseValue(text + ([d] + tail), num) == Some((n, [d] + tail))
    requires d == COMMA || d == RBRACE
    ensures ParseMembers(StringText(k) + ([COLON] + (text + ([d] + tail))), seen, num)
         == if d == COMMA then ParseMembers(tail, Put(seen, k, n), num) else Some((Obj(Put(seen, k, n)), tail))
  {
    var e, valued := Escape(k), text + ([d] + tail);
    var after := [COLON] + valued;
    var s := StringText(k) + after;
    KeyStep(k, after);
    assert after[0] == COLON && after[1..] == valued;
    assert SkipSpace(after) == after;
    assert SkipSpace([d] + tail) == [d] + tail && ([d] + tail)[1..] == tail;
  }

  lemma {:induction false} KeyStep(k: Text, after: Text)
    ensures var s := StringText(k) + after;
            SkipSpace(s) == s && s != [] && s[0] == QUOTE && ParseChars(s[1..]) == Some((k, after))
  {
    var e, s := Escape(k), StringText(k) + after;
    assert s[1..] == e + ([QUOTE] + after);
    ParseEscaped(k, after);
  }

  lemma {:induction false} ParseFirstMember(m: Member, d: Unit, tail: Text, seen: seq<Member>, num: Text -> Json)
    requires Wf(m.value, num)
    requires d == COMMA || d == RBRACE
    requires forall i :: 0 <= i < |seen| ==> seen[i].key != m.key
    ensures ParseMembers(MemberText(m) + ([d] + tail), seen, num)
         == if d == COMMA then ParseMembers(tail, seen + [Member(m.key, Normal(m.value))], num)
            else Some((Obj(seen + [Member(m.key, Normal(m.value))]), tail))
    decreases Size(m.value), 1
  {
    ParseCanonicalValue(m.value, [d] + tail, num);
    MemberStep(m.key, Canonical(m.value), Normal(m.value), d, tail, seen, num);
    MemberTextRegroup(m, [d] + tail);
    PutFresh(seen, m.key, Normal(m.value));
  }

  lemma {:induction false} ParseCanonicalMembers(ms: seq<Member>, seen: seq<Member>, rest: Text, num: Text -> Json)
    requires ms != []
    requires WfMembers(ms, num)
    requires Apart(seen, ms)
    ensures ParseMembers(CanonicalMembers(ms) + ([RBRACE] + rest), seen, num)
         == Some((Obj(seen + NormalMembers(ms)), rest))
    decreases MembersSize(ms), 0
  {
    NormalTail(seen, ms);
    if |ms| == 1 {
      ParseFirstMember(ms[0], RBRACE, rest, seen, num);
    } else {
      var now := seen + [Member(ms[0].key, Normal(ms[0].value))];
      ParseFirstMember(ms[0], COMMA, CanonicalMembers(ms[1..]) + ([RBRACE] + rest), seen, num);
      CanonicalMembersCons(ms, [RBRACE] + rest);
      ApartTail(seen, ms, Member(ms[0].key, Normal(ms[0].value)));
      WfTail(ms, num);
      ParseCanonicalMembers(ms[1..], now, rest, num);
    }
  }

  lemma {:induction false} WfTail(ms: seq<Member>, num: Text -> Json)
    requires ms != [] && WfMembers(ms, num)
    ensures WfMembers(ms[1..], num)
  {
    forall i | 0 <= i < |ms[1..]| ensures Wf(ms[1..][i].value, num) {
      assert ms[1..][i] == ms[i + 1];
    }
  }

  lemma {:induction false} NormalTail(seen: seq<Member>, ms: seq<Member>)
    requires ms != []
    ensures seen + [Member(ms[0].key, Normal(ms[0].value))] + NormalMembers(ms[1..]) == seen + NormalMembers(ms)
    ensures |ms| == 1 ==> seen + [Member(ms[0].key, Normal(ms[0].value))] == seen + NormalMembers(ms)
  {
    var one, more := [Member(ms[0].key, Normal(ms[0].value))], NormalMembers(ms[1..]);
    assert seen + one + more == seen + (one + more);
  }

  lemma {:induction false} CanonicalMembersCons(ms: seq<Member>, after: Text)
    requires |ms| > 1
    ensures CanonicalMembers(ms) + after == MemberText(ms[0]) + ([COMMA] + (CanonicalMembers(ms[1..]) + after))
  {
    ListRegroup(MemberText(ms[0]), CanonicalMembers(ms[1..]), after);
  }

  ghost predicate Apart(seen: seq<Member>, ms: seq<Member>) {
    forall i, j :: 0 <= i < |seen| && 0 <= j < |ms| ==> seen[i].key != ms[j].key
  }

  lemma {:induction false} ApartTail(seen: seq<Member>, ms: seq<Member>, one: Member)
    requires ms != [] && one.key == ms[0].key && Apart(seen, ms) && DistinctKeys(ms)
    ensures Apart(seen + [one], ms[1..])
  {
  }

  lemma {:induction false} MemberTextRegroup(m: Member, after: Text)
    ensures MemberText(m) + after == StringText(m.key) + ([COLON] + (Canonical(m.value) + after))
  {
    var k, text := StringText(m.key), Canonical(m.value);
    assert k + [COLON] + text + after == k + ([COLON] + (text + after));
  }

  lemma {:induction false} ListRegroup(first: Text, more: Text, after: Text)
    ensures first + [COMMA] + more + after == first + ([COMMA] + (more + after))
  {
  }

  lemma {:induction false} SortedWf(ms: seq<Member>, num: Text -> Json)
    requires WfMembers(ms, num)
    ensures WfMembers(SortMembers(ms), num)
  {
    var sorted := SortMembers(ms);
    SortSorted(ms);
    SortKeepsMembers(ms);
    forall i | 0 <= i < |sorted| ensures Wf(sorted[i].value, num) {
      assert sorted[i] in ms;
    }
    forall i, j | 0 <= i < j < |sorted| ensures sorted[i].key != sorted[j].key {
      LexTotal(sorted[i].key, sorted[j].key);
    }
  }

  /** Parsing the canonical text, with or without the trailing line feed of the manifest, gives the value back. */
  lemma {:induction false} ParseCanonical(v: Json, num: Text -> Json)
    requires Wf(v, num)
    ensures Parse(Canonical(v), num) == Some(Normal(v))
    ensures Parse(Canonical(v) + [LF], num) == Some(Normal(v))
  {
    ParseCanonicalValue(v, [], num);
    assert Canonical(v) + [] == Canonical(v);
    ParseCanonicalValue(v, [LF], num);
    assert SkipSpace([LF]) == SkipSpace([LF][1..]);
  }

  /******* Canonicalising twice *******/

  lemma {:induction false} CanonicalOfNormal(v: Json, num: Text -> Json)
    requires Wf(v, num)
    ensures Canonical(Normal(v)) == Canonical(v)
    decreases Size(v)
  {
    match v
    case Arr(items) => CanonicalOfNormalItems(items, num);
    case Obj(ms) =>
      var sorted := SortMembers(ms);
      SortSorted(ms);
      SortedWf(ms, num);
      CanonicalOfNormalMembers(sorted, num);
      NormalMembersSorted(sorted);
      SortOfSorted(NormalMembers(sorted));
    case _ =>
  }

  lemma {:induction false} NormalMembersSorted(ms: seq<Member>)
    requires SortedKeys(ms)
    ensures SortedKeys(NormalMembers(ms))
  {
    forall i | 0 <= i < |ms| ensures NormalMembers(ms)[i].key == ms[i].key {
      NormalMembersAt(ms, i);
    }
  }

  lemma {:induction false} CanonicalOfNormalItems(items: seq<Json>, num: Text -> Json)
    requires forall i :: 0 <= i < |items| ==> Wf(items[i], num)
    ensures CanonicalItems(NormalItems(items)) == CanonicalItems(items)
    decreases ItemsSize(items)
  {
    if items != [] {
      CanonicalOfNormal(items[0], num);
      CanonicalOfNormalItems(items[1..], num);
      assert NormalItems(items)[1..] == NormalItems(items[1..]);
    }
  }

  lemma {:induction false} CanonicalOfNormalMembers(ms: seq<Member>, num: Text -> Json)
    requires WfMembers(ms, num)
    ensures CanonicalMembers(NormalMembers(ms)) == CanonicalMembers(ms)
    decreases MembersSize(ms)
  {
    if ms != [] {
      CanonicalOfNormal(ms[0].value, num);
      CanonicalOfNormalMembers(ms[1..], num);
      assert NormalMembers(ms)[1..] == NormalMembers(ms[1..]);
    }
  }

  /** Canonicalising what the canonical text parses to gives the same text again. */
  lemma {:induction false} CanonicalIsIdempotent(v: Json, num: Text -> Json)
    requires Wf(v, num)
    ensures Parse(Canonical(v), num).Some?
    ensures Canonical(Parse(Canonical(v), num).value) == Canonical(v)
  {
    ParseCanonical(v, num);
    CanonicalOfNormal(v, num);
  }

  /******* Equality up to member order *******/

  function Leaf(v: Json, lossy: bool): Json {
    if lossy && v.Infinite? then Null else v
  }

  // Equal up to member order at every depth; `lossy` reads a non-finite number as null.
  ghost predicate Same(a: Json, b: Json, lossy: bool)
    decreases a, 0
  {
    match a
    case Arr(xs) =>
      b.Arr? && |xs| == |b.items| && forall i :: 0 <= i < |xs| ==> Same(xs[i], b.items[i], lossy)
    case Obj(ms) =>
      b.Obj? &&
      (forall i :: 0 <= i < |ms| ==> Matched(ms[i], b.members, lossy)) &&
      (forall j :: 0 <= j < |b.members| ==> HasKey(ms, b.members[j].key))
    case _ => !b.Arr? && !b.Obj? && Leaf(a, lossy) == Leaf(b, lossy)
  }

  ghost predicate Matched(m: Member, ns: seq<Member>, lossy: bool)
    decreases m.value, 1
  {
    exists j :: 0 <= j < |ns| && ns[j].key == m.key && Same(m.value, ns[j].value, lossy)
  }

  predicate HasKey(ms: seq<Member>, k: Text) {
    exists i :: 0 <= i < |ms| && ms[i].key == k
  }

  ghost predicate AllFinite(v: Json)
    decreases v
  {
    match v
    case Infinite(_) => false
    case Arr(items) => forall i :: 0 <= i < |items| ==> AllFinite(items[i])
    case Obj(ms) => forall i :: 0 <= i < |ms| ==> AllFinite(ms[i].value)
    case _ => true
  }

  lemma {:induction false} NormalEqualMeansSame(a: Json, b: Json, num: Text -> Json)
    requires Wf(a, num) && Wf(b, num) && Normal(a) == Normal(b)
    ensures Same(a, b, true)
    decreases a, 0
  {
    match a
    case Arr(xs) =>
      forall i | 0 <= i < |xs| ensures Same(xs[i], b.items[i], true) {
        NormalItemsAt(xs, i);
        NormalItemsAt(b.items, i);
        NormalEqualMeansSame(xs[i], b.items[i], num);
      }
    case Obj(ms) =>
      var ns := b.members;
      var sa, sb := SortMembers(ms), SortMembers(ns);
      assert NormalMembers(sa) == NormalMembers(sb);
      forall i | 0 <= i < |ms| ensures Matched(ms[i], ns, true) {
        var j := Partner(ms, ns, i);
        NormalEqualMeansSame(ms[i].value, ns[j].value, num);
      }
      forall j | 0 <= j < |ns| ensures HasKey(ms, ns[j].key) {
        var i := Partner(ns, ms, j);
      }
    case _ =>
  }

  // The member of `ns` that sorts to the place of ms[i].
  lemma {:induction false} Partner(ms: seq<Member>, ns: seq<Member>, i: nat) returns (j: nat)
    requires i < |ms|
    requires NormalMembers(SortMembers(ms)) == NormalMembers(SortMembers(ns))
    ensures j < |ns| && ns[j].key == ms[i].key && Normal(ns[j].value) == Normal(ms[i].value)
  {
    var sa, sb := SortMembers(ms), SortMembers(ns);
    var k := SortedPlace(ms, i);
    assert |sa| == |NormalMembers(sa)| == |sb|;
    NormalMembersAt(sa, k);
    NormalMembersAt(sb, k);
    j := UnsortedPlace(ns, k);
  }

  lemma {:induction false} SameMeansNormalEqual(a: Json, b: Json, num: Text -> Json)
    requires Wf(a, num) && Wf(b, num) && Same(a, b, true)
    ensures Normal(a) == Normal(b)
    decreases a, 0
  {
    match a
    case Arr(xs) =>
      forall i | 0 <= i < |xs| ensures NormalItems(xs)[i] == NormalItems(b.items)[i] {
        NormalItemsAt(xs, i);
        NormalItemsAt(b.items, i);
        SameMeansNormalEqual(xs[i], b.items[i], num);
      }
      assert NormalItems(xs) == NormalItems(b.items);
    case Obj(ms) =>
      var ns := b.members;
      forall i, j | 0 <= i < |ms| && 0 <= j < |ns| && ms[i].key == ns[j].key
        ensures Normal(ms[i].value) == Normal(ns[j].value)
      {
        assert Matched(ms[i], ns, true);
        SameMeansNormalEqual(ms[i].value, ns[j].value, num);
      }
      forall i | 0 <= i < |ms| ensures HasKey(ns, ms[i].key) {
        assert Matched(ms[i], ns, true);
      }
      SameMembersSortAlike(ms, ns);
    case _ =>
  }

  ghost predicate SameKeys(ms: seq<Member>, ns: seq<Member>) {
    && (forall i :: 0 <= i < |ms| ==> HasKey(ns, ms[i].key))
    && (forall j :: 0 <= j < |ns| ==> HasKey(ms, ns[j].key))
  }

  lemma {:induction false} SameMembersSortAlike(ms: seq<Member>, ns: seq<Member>)
    requires DistinctKeys(ms) && DistinctKeys(ns) && SameKeys(ms, ns)
    requires forall i, j :: 0 <= i < |ms| && 0 <= j < |ns| && ms[i].key == ns[j].key ==>
      Normal(ms[i].value) == Normal(ns[j].value)
    ensures NormalMembers(SortMembers(ms)) == NormalMembers(SortMembers(ns))
  {
    var sa, sb := SortMembers(ms), SortMembers(ns);
    SortSorted(ms);
    SortSorted(ns);
    SortedHasKeys(ms, ns);
    SortedHasKeys(ns, ms);
    SortedKeysAgree(sa, sb);
    forall k | 0 <= k < |sa| ensures NormalMembers(sa)[k] == NormalMembers(sb)[k] {
      NormalMembersAt(sa, k);
      NormalMembersAt(sb, k);
      var i := UnsortedPlace(ms, k);
      var j := UnsortedPlace(ns, k);
    }
  }

  lemma {:induction false} SortedHasKeys(ms: seq<Member>, ns: seq<Member>)
    requires forall i :: 0 <= i < |ms| ==> HasKey(ns, ms[i].key)
    ensures forall k :: 0 <= k < |SortMembers(ms)| ==> HasKey(SortMembers(ns), SortMembers(ms)[k].key)
  {
    forall k | 0 <= k < |SortMembers(ms)| ensures HasKey(SortMembers(ns), SortMembers(ms)[k].key) {
      var i := UnsortedPlace(ms, k);
      assert HasKey(ns, ms[i].key);
      var j :| 0 <= j < |ns| && ns[j].key == ms[i].key;
      var l := SortedPlace(ns, j);
    }
  }

  // Strictly sorted member lists with the same keys carry them in the same places.
  lemma {:induction false} SortedKeysAgree(sa: seq<Member>, sb: seq<Member>)
    requires SortedKeys(sa) && SortedKeys(sb) && SameKeys(sa, sb)
    ensures |sa| == |sb| && forall k :: 0 <= k < |sa| ==> sa[k].key == sb[k].key
    decreases |sa|
  {
    if sa == [] || sb == [] {
      assert sa != [] ==> HasKey(sb, sa[0].key);
      assert sb != [] ==> HasKey(sa, sb[0].key);
    } else {
      assert HasKey(sb, sa[0].key) && HasKey(sa, sb[0].key);
      LexTotal(sa[0].key, sb[0].key);
      assert sa[0].key == sb[0].key;
      TailHasKey(sa, sb);
      TailHasKey(sb, sa);
      SortedKeysAgree(sa[1..], sb[1..]);
      forall k | 0 <= k < |sa| ensures sa[k].key == sb[k].key {
        if k > 0 { assert sa[k] == sa[1..][k - 1] && sb[k] == sb[1..][k - 1]; }
      }
    }
  }

  lemma {:induction false} TailHasKey(sa: seq<Member>, sb: seq<Member>)
    requires SortedKeys(sa) && sa != [] && sb != [] && sa[0].key == sb[0].key
    requires forall i :: 0 <= i < |sa| ==> HasKey(sb, sa[i].key)
    ensures forall i :: 0 <= i < |sa[1..]| ==> HasKey(sb[1..], sa[1..][i].key)
  {
    forall i | 0 <= i < |sa[1..]| ensures HasKey(sb[1..], sa[1..][i].key) {
      assert HasKey(sb, sa[i + 1].key);
      var j :| 0 <= j < |sb| && sb[j].key == sa[i + 1].key;
      LexTotal(sa[0].key, sa[i + 1].key);
      assert LexLess(sa[0].key, sa[i + 1].key);
      assert sb[1..][j - 1].key == sa[1..][i].key;
    }
  }

  /** Two values have one canonical text exactly when they agree up to member order, non-finite numbers read as null. */
  lemma {:induction false} CanonicalEqualIff(a: Json, b: Json, num: Text -> Json)
    requires Wf(a, num) && Wf(b, num)
    ensures Canonical(a) == Canonical(b) <==> Same(a, b, true)
  {
    if Canonical(a) == Canonical(b) {
      ParseCanonical(a, num);
      ParseCanonical(b, num);
      NormalEqualMeansSame(a, b, num);
    }
    if Same(a, b, true) {
      SameMeansNormalEqual(a, b, num);
      CanonicalOfNormal(a, num);
      CanonicalOfNormal(b, num);
    }
  }

  lemma {:induction false} FiniteSame(a: Json, b: Json)
    requires AllFinite(a) && AllFinite(b)
    ensures Same(a, b, true) <==> Same(a, b, false)
    decreases a, 0
  {
    match a
    case Arr(xs) =>
      if b.Arr? && |b.items| == |xs| {
        forall i | 0 <= i < |xs| ensures Same(xs[i], b.items[i], true) <==> Same(xs[i], b.items[i], false) {
          FiniteSame(xs[i], b.items[i]);
        }
      }
    case Obj(ms) =>
      if b.Obj? {
        forall i | 0 <= i < |ms| ensures Matched(ms[i], b.members, true) <==> Matched(ms[i], b.members, false) {
          forall j | 0 <= j < |b.members|
            ensures Same(ms[i].value, b.members[j].value, true) <==> Same(ms[i].value, b.members[j].value, false)
          {
            FiniteSame(ms[i].value, b.members[j].value);
          }
        }
      }
    case _ =>
  }

  /** On values without Infinity the text decides equality up to member order exactly. */
  lemma {:induction false} FiniteCanonicalEqualIff(a: Json, b: Json, num: Text -> Json)
    requires Wf(a, num) && Wf(b, num)
    requires AllFinite(a) && AllFinite(b)
    ensures Canonical(a) == Canonical(b) <==> Same(a, b, false)
  {
    CanonicalEqualIff(a, b, num);
    FiniteSame(a, b);
  }

  /** With Infinity it does not: JSON.parse("1e999") and null have the same canonical text. */
  lemma {:induction false} InfinityCollidesWithNull()
    ensures Canonical(Infinite(false)) == Canonical(Null)
    ensures !Same(Infinite(false), Null, false)
  {
    assert Leaf(Infinite(false), false) != Leaf(Null, false);
  }
}
