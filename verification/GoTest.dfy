/**
 The Go-test JSON reader: lines reassembled from arbitrary chunks, events tallied, failures reduced to
 their leaves, and the final verdict.
 */
module GoTest {
  import opened Wrappers
  import Decimal

  /******* Lines *******/

  function Last(s: seq<string>): string
    requires s != []
  {
    s[|s| - 1]
  }

  function Init(s: seq<string>): seq<string>
    requires s != []
  {
    s[..|s| - 1]
  }

  predicate StartsBreak(s: string) { s != "" && (s[0] == '\n' || (|s| >= 2 && s[0] == '\r' && s[1] == '\n')) }

  // text.split(/\r?\n/)
  function Split(s: string): (lines: seq<string>)
    ensures lines != []
  {
    if s == "" then [""]
    else if s[0] == '\n' then [""] + Split(s[1..])
    else if StartsBreak(s) then [""] + Split(s[2..])
    else Grow(s[0], Split(s[1..]))
  }

  function Grow(c: char, lines: seq<string>): (r: seq<string>)
    requires lines != []
    ensures r != []
  {
    [[c] + lines[0]] + lines[1..]
  }

  lemma {:induction false} OnePiece(s: string)
    requires |Split(s)| == 1
    ensures Split(s) == [s]
  {
    if s != "" {
      assert !StartsBreak(s);
      OnePiece(s[1..]);
      assert [s[0]] + s[1..] == s;
    }
  }

  lemma {:induction false} GrowInit(c: char, lines: seq<string>)
    requires |lines| >= 2
    ensures Init(Grow(c, lines)) == Grow(c, Init(lines)) && Last(Grow(c, lines)) == Last(lines)
  {
  }

  lemma {:induction false} GrowJoin(c: char, a: seq<string>, b: seq<string>)
    requires a != []
    ensures Grow(c, a + b) == Grow(c, a) + b
  {
  }

  /** Splitting may stop anywhere, even between a CR and its LF, and go on from the last piece. */
  lemma {:induction false} SplitResumes(a: string, b: string)
    ensures Split(a + b) == Init(Split(a)) + Split(Last(Split(a)) + b)
    decreases |a|, 1
  {
    if a == "" {
      assert a + b == b && Last(Split(a)) + b == b;
    } else if a[0] == '\n' {
      SplitBreak(a, b, 1);
    } else if StartsBreak(a) {
      SplitBreak(a, b, 2);
    } else if |Split(a[1..])| == 1 {
      OnePiece(a[1..]);
      assert [a[0]] + a[1..] == a;
    } else {
      SplitLetter(a, b);
    }
  }

  lemma {:induction false} SplitBreak(a: string, b: string, n: nat)
    requires StartsBreak(a) && n == if a[0] == '\n' then 1 else 2
    ensures Split(a + b) == Init(Split(a)) + Split(Last(Split(a)) + b)
    decreases |a|, 0
  {
    var rest := Split(a[n..]);
    assert (a + b)[n..] == a[n..] + b;
    SplitResumes(a[n..], b);
    assert Split(a) == [""] + rest;
    BreakInit(rest, Split(Last(rest) + b));
  }

  lemma {:induction false} BreakInit(a: seq<string>, b: seq<string>)
    requires a != []
    ensures Init([""] + a) + b == [""] + (Init(a) + b) && Last([""] + a) == Last(a)
  {
  }

  lemma {:induction false} SplitLetter(a: string, b: string)
    requires a != "" && !StartsBreak(a) && |Split(a[1..])| >= 2
    ensures Split(a + b) == Init(Split(a)) + Split(Last(Split(a)) + b)
    decreases |a|, 0
  {
    var rest := Split(a[1..]);
    assert a[1..] != "";
    assert (a + b)[1..] == a[1..] + b && !StartsBreak(a + b);
    SplitResumes(a[1..], b);
    GrowInit(a[0], rest);
    GrowJoin(a[0], Init(rest), Split(Last(rest) + b));
  }

  // The text with every CRLF written as LF.
  function Unix(s: string): string {
    if s == "" then "" else if "\r\n" <= s then "\n" + Unix(s[2..]) else [s[0]] + Unix(s[1..])
  }

  function Join(lines: seq<string>): string
    requires lines != []
  {
    if |lines| == 1 then lines[0] else lines[0] + "\n" + Join(lines[1..])
  }

  lemma {:induction false} GrowIsCons(c: char, lines: seq<string>)
    requires lines != []
    ensures Join(Grow(c, lines)) == [c] + Join(lines)
  {
    assert Grow(c, lines)[1..] == lines[1..];
    if |lines| > 1 {
      assert [c] + lines[0] + "\n" + Join(lines[1..]) == [c] + (lines[0] + "\n" + Join(lines[1..]));
    }
  }

  lemma {:induction false} BreakIsNewline(lines: seq<string>)
    requires lines != []
    ensures Join([""] + lines) == "\n" + Join(lines)
  {
    assert ([""] + lines)[1..] == lines;
    assert "" + "\n" + Join(lines) == "\n" + Join(lines);
  }

  /** Splitting loses nothing but the choice of line ending: no line holds a LF and the lines rejoin to the text. */
  lemma {:induction false} SplitIsLossless(s: string)
    ensures Join(Split(s)) == Unix(s)
    ensures forall i :: 0 <= i < |Split(s)| ==> '\n' !in Split(s)[i]
  {
    if s == "" {
    } else if s[0] == '\n' {
      SplitIsLossless(s[1..]);
      BreakIsNewline(Split(s[1..]));
    } else if StartsBreak(s) {
      SplitIsLossless(s[2..]);
      BreakIsNewline(Split(s[2..]));
    } else {
      SplitIsLossless(s[1..]);
      GrowIsCons(s[0], Split(s[1..]));
    }
  }

  /******* Events *******/

  // The fields the reader looks at; a missing field is the empty text.
  datatype Event = Event(action: string, pkg: string, test: string, output: string)
  datatype TestName = TestName(pkg: string, name: string)

  const OUTPUT_LIMIT := 2_000_000

  datatype Tally = Tally(
    failures: seq<Event>, skipped: nat, passedPackages: set<string>, passedTests: map<string, TestName>,
    output: string, parseError: bool)

  const EMPTY := Tally([], 0, {}, map[], "", false)

  function Key(pkg: string, name: string): string { pkg + "\0" + name }

  predicate Blank(line: string) { Decimal.Trim(line) == "" }

  function Record(t: Tally, e: Event): Tally {
    t.(failures := if e.action == "fail" then t.failures + [e] else t.failures,
       skipped := if e.action == "skip" then t.skipped + 1 else t.skipped,
       passedPackages :=
         if e.action == "pass" && e.test == "" && e.pkg != "" then t.passedPackages + {e.pkg}
         else t.passedPackages,
       passedTests :=
         if e.action == "pass" && e.test != "" && e.pkg != "" then
           t.passedTests[Key(e.pkg, e.test) := TestName(e.pkg, e.test)]
         else t.passedTests,
       output := if |t.output| < OUTPUT_LIMIT then t.output + e.output else t.output)
  }

  function Consume(parse: string -> Option<Event>, t: Tally, line: string): Tally {
    if Blank(line) then t
    else match parse(line)
      case None => t.(parseError := true)
      case Some(e) => Record(t, e)
  }

  function ConsumeAll(parse: string -> Option<Event>, t: Tally, lines: seq<string>): Tally {
    if lines == [] then t else Consume(parse, ConsumeAll(parse, t, Init(lines)), Last(lines))
  }

  lemma {:induction false} ConsumeJoin(parse: string -> Option<Event>, t: Tally, a: seq<string>, b: seq<string>)
    ensures ConsumeAll(parse, t, a + b) == ConsumeAll(parse, ConsumeAll(parse, t, a), b)
  {
    if b == [] {
      assert a + b == a;
    } else {
      assert Init(a + b) == a + Init(b) && Last(a + b) == Last(b);
      ConsumeJoin(parse, t, a, Init(b));
    }
  }

  /** The reader of runGoJSONWithoutSkips; `text` is everything received so far. */
  class Reader {
    const parse: string -> Option<Event>
    var pending: string
    var failures: seq<Event>
    var skipped: nat
    var passedPackages: set<string>
    var passedTests: map<string, TestName>
    var output: string
    var parseError: bool
    ghost var text: string

    constructor (parse: string -> Option<Event>)
      ensures Valid() && text == "" && this.parse == parse
    {
      this.parse := parse;
      pending, failures, skipped, passedPackages, passedTests := "", [], 0, {}, map[];
      output, parseError, text := "", false, "";
      new;
      assert Init(Split("")) == [];
    }

    function Seen(): Tally
      reads this
    {
      Tally(failures, skipped, passedPackages, passedTests, output, parseError)
    }

    // Every finished line has been consumed and the unfinished one is pending.
    ghost predicate Valid()
      reads this
    {
      Seen() == ConsumeAll(parse, EMPTY, Init(Split(text))) && pending == Last(Split(text))
    }

    method ConsumeLine(line: string)
      modifies this
      ensures Seen() == Consume(parse, old(Seen()), line)
      ensures pending == old(pending) && text == old(text)
    {
      if Blank(line) { return; }
      var parsed := parse(line);
      if parsed.None? {
        parseError := true;
        return;
      }
      var event := parsed.value;
      if event.action == "fail" { failures := failures + [event]; }
      if event.action == "skip" { skipped := skipped + 1; }
      if event.action == "pass" && event.test == "" && event.pkg != "" {
        passedPackages := passedPackages + {event.pkg};
      }
      if event.action == "pass" && event.test != "" && event.pkg != "" {
        passedTests := passedTests[Key(event.pkg, event.test) := TestName(event.pkg, event.test)];
      }
      if |output| < OUTPUT_LIMIT { output := output + event.output; }
    }

    method OnData(chunk: string)
      requires Valid()
      modifies this
      ensures Valid() && text == old(text) + chunk
    {
      SplitResumes(text, chunk);
      pending := pending + chunk;
      var lines := Split(pending);
      pending := Last(lines);
      ghost var before := Seen();
      for i := 0 to |lines| - 1
        invariant Seen() == ConsumeAll(parse, before, lines[..i])
        invariant pending == Last(lines) && text == old(text)
      {
        assert Init(lines[..i + 1]) == lines[..i] && Last(lines[..i + 1]) == lines[i];
        ConsumeLine(lines[i]);
      }
      ConsumeJoin(parse, EMPTY, Init(Split(text)), Init(lines));
      assert Init(Init(Split(text)) + lines) == Init(Split(text)) + Init(lines);
      text := text + chunk;
    }

    method OnClose()
      requires Valid()
      modifies this
      ensures Seen() == ConsumeAll(parse, EMPTY, Split(text)) && text == old(text)
    {
      ConsumeLine(pending);
    }
  }

  function Concat(chunks: seq<string>): string {
    if chunks == [] then "" else Concat(Init(chunks)) + Last(chunks)
  }

  /** However the output is cut into chunks, what is consumed is the batch split of the whole text. */
  method ReadChunks(parse: string -> Option<Event>, chunks: seq<string>) returns (t: Tally)
    ensures t == ConsumeAll(parse, EMPTY, Split(Concat(chunks)))
  {
    var reader := new Reader(parse);
    for i := 0 to |chunks|
      invariant reader.Valid() && reader.parse == parse && reader.text == Concat(chunks[..i])
      invariant fresh(reader)
    {
      assert Init(chunks[..i + 1]) == chunks[..i] && Last(chunks[..i + 1]) == chunks[i];
      reader.OnData(chunks[i]);
    }
    assert chunks[..|chunks|] == chunks;
    reader.OnClose();
    t := reader.Seen();
  }

  /******* Failure leaves *******/

  predicate FailsTest(e: Event) { e.action == "fail" && e.pkg != "" && e.test != "" }
  predicate FailsPackage(e: Event) { e.action == "fail" && e.pkg != "" && e.test == "" }

  function NameOf(e: Event): TestName { TestName(e.pkg, e.test) }

  // The failedTests map as the loop leaves it: a later event with the same key replaces the value.
  function FailMap(events: seq<Event>): map<string, TestName> {
    if events == [] then map[]
    else
      var before, e := FailMap(events[..|events| - 1]), events[|events| - 1];
      if FailsTest(e) then before[Key(e.pkg, e.test) := NameOf(e)] else before
  }

  function FailedTests(events: seq<Event>): set<TestName> { set e | e in events && FailsTest(e) :: NameOf(e) }
  function FailedPackages(events: seq<Event>): set<string> { set e | e in events && FailsPackage(e) :: e.pkg }

  // `other` is a subtest of `f`, at any depth.
  predicate Under(other: TestName, f: TestName) { other.pkg == f.pkg && f.name + "/" <= other.name }

  function Leaves(failed: set<TestName>): set<TestName> {
    set f | f in failed && !(exists other :: other in failed && Under(other, f))
  }

  /** summarizeGoTestFailures, before sorting. */
  method Summarize(events: seq<Event>) returns (tests: set<TestName>, packages: set<string>)
    ensures tests == Leaves(FailMap(events).Values)
    ensures packages == FailedPackages(events)
  {
    var failedTests: map<string, TestName> := map[];
    packages := {};
    for i := 0 to |events|
      invariant failedTests == FailMap(events[..i])
      invariant packages == FailedPackages(events[..i])
    {
      var event := events[i];
      assert events[..i + 1][..i] == events[..i] && events[..i + 1][i] == event;
      PackagesStep(events, i);
      if event.action != "fail" || event.pkg == "" { continue; }
      if event.test != "" {
        failedTests := failedTests[Key(event.pkg, event.test) := TestName(event.pkg, event.test)];
      } else {
        packages := packages + {event.pkg};
      }
    }
    assert events[..|events|] == events;
    var values := failedTests.Values;
    tests := set candidate | candidate in values && !(exists other :: other in values && Under(other, candidate));
  }

  lemma {:induction false} PackagesStep(events: seq<Event>, i: nat)
    requires i < |events|
    ensures FailedPackages(events[..i + 1])
      == FailedPackages(events[..i]) + if FailsPackage(events[i]) then {events[i].pkg} else {}
  {
    assert events[..i + 1] == events[..i] + [events[i]];
  }

  predicate NoNul(s: string) { '\0' !in s }

  lemma {:induction false} KeyInjective(p: string, n: string, q: string, m: string)
    requires NoNul(p) && NoNul(q) && Key(p, n) == Key(q, m)
    ensures p == q && n == m
  {
    FirstNul(p, n);
    FirstNul(q, m);
    var k := Key(p, n);
    assert p == k[..|p|] && q == k[..|q|] && n == k[|p| + 1..] && m == k[|q| + 1..];
  }

  lemma {:induction false} FirstNul(p: string, n: string)
    requires NoNul(p)
    ensures |Key(p, n)| > |p| && Key(p, n)[|p|] == '\0'
    ensures forall i :: 0 <= i < |p| ==> Key(p, n)[i] != '\0'
  {
    forall i | 0 <= i < |p| ensures Key(p, n)[i] != '\0' {
      assert Key(p, n)[i] == p[i];
    }
  }

  // No two different failed tests are stored under one key.
  ghost predicate NoCollision(events: seq<Event>) {
    forall e, f ::
      e in events && f in events && FailsTest(e) && FailsTest(f) && Key(e.pkg, e.test) == Key(f.pkg, f.test) ==>
        NameOf(e) == NameOf(f)
  }

  predicate OwnKey(m: map<string, TestName>, k: string)
    requires k in m
  {
    k == Key(m[k].pkg, m[k].name)
  }

  // Each value sits under its own key and is a failed test, and each failed test's key is taken.
  lemma {:induction false} MapEntries(events: seq<Event>)
    ensures forall k :: k in FailMap(events) ==> OwnKey(FailMap(events), k) && FailMap(events)[k] in FailedTests(events)
    ensures forall e :: e in events && FailsTest(e) ==> Key(e.pkg, e.test) in FailMap(events)
  {
    if events != [] {
      var init, e := events[..|events| - 1], events[|events| - 1];
      assert events == init + [e];
      MapEntries(init);
      assert FailsTest(e) ==> NameOf(e) in FailedTests(events);
      forall t | t in FailedTests(init) ensures t in FailedTests(events) {
        var f :| f in init && FailsTest(f) && NameOf(f) == t;
        assert f in events;
      }
    }
  }

  /** The map holds exactly the failed tests if and only if no two different failed tests share a key. */
  lemma {:induction false} MapHoldsFailuresIff(events: seq<Event>)
    ensures FailMap(events).Values == FailedTests(events) <==> NoCollision(events)
  {
    MapEntries(events);
    var m := FailMap(events);
    if m.Values == FailedTests(events) {
      forall e, f |
        e in events && f in events && FailsTest(e) && FailsTest(f) && Key(e.pkg, e.test) == Key(f.pkg, f.test)
        ensures NameOf(e) == NameOf(f)
      {
        StoredUnderOwnKey(events, e);
        StoredUnderOwnKey(events, f);
      }
    }
    if NoCollision(events) {
      forall t | t in FailedTests(events) ensures t in m.Values {
        var e :| e in events && FailsTest(e) && NameOf(e) == t;
        var k := Key(e.pkg, e.test);
        assert OwnKey(m, k) && m[k] in FailedTests(events);
        var f :| f in events && FailsTest(f) && NameOf(f) == m[k];
        assert m[k] == t;
      }
    }
  }

  lemma {:induction false} StoredUnderOwnKey(events: seq<Event>, e: Event)
    requires e in events && FailsTest(e) && FailMap(events).Values == FailedTests(events)
    ensures Key(e.pkg, e.test) in FailMap(events) && FailMap(events)[Key(e.pkg, e.test)] == NameOf(e)
  {
    MapEntries(events);
    var m := FailMap(events);
    assert NameOf(e) in FailedTests(events);
    var k :| k in m && m[k] == NameOf(e);
    assert OwnKey(m, k);
  }

  ghost predicate Packaged(events: seq<Event>) { forall e :: e in events ==> NoNul(e.pkg) }

  /** In particular it does when no package name holds a NUL, as no Go import path does. */
  lemma {:induction false} MapHoldsFailures(events: seq<Event>)
    requires Packaged(events)
    ensures FailMap(events).Values == FailedTests(events)
  {
    forall e, f | e in events && f in events && FailsTest(e) && FailsTest(f) && Key(e.pkg, e.test) == Key(f.pkg, f.test)
      ensures NameOf(e) == NameOf(f)
    {
      KeyInjective(e.pkg, e.test, f.pkg, f.test);
    }
    MapHoldsFailuresIff(events);
  }

  /**
   The report depends only on which events occurred, not on their order or on how often, whenever no key is
   shared.
   */
  lemma {:induction false} OrderAndDuplicatesIrrelevant(a: seq<Event>, b: seq<Event>)
    requires NoCollision(a) && (forall e :: e in a <==> e in b)
    ensures Leaves(FailMap(a).Values) == Leaves(FailMap(b).Values) && FailedPackages(a) == FailedPackages(b)
  {
    MapHoldsFailuresIff(a);
    MapHoldsFailuresIff(b);
    assert FailedTests(a) == FailedTests(b);
  }

  ghost predicate Antichain(tests: set<TestName>) {
    forall a, b :: a in tests && b in tests ==> !Under(a, b)
  }

  predicate CoveredBy(l: TestName, f: TestName) { l == f || Under(l, f) }

  ghost predicate Covered(tests: set<TestName>, f: TestName) { exists l :: l in tests && CoveredBy(l, f) }

  ghost predicate Covers(tests: set<TestName>, failed: set<TestName>) {
    forall f {:trigger Covered(tests, f)} :: f in failed ==> Covered(tests, f)
  }

  lemma {:induction false} UnderTransitive(a: TestName, b: TestName, c: TestName)
    requires Under(a, b) && Under(b, c)
    ensures Under(a, c)
  {
    assert c.name + "/" <= b.name <= b.name + "/" <= a.name;
  }

  lemma {:induction false} HasLeaf(failed: set<TestName>, f: TestName) returns (l: TestName)
    requires f in failed
    ensures l in Leaves(failed) && CoveredBy(l, f)
    decreases set g | g in failed && |g.name| > |f.name|
  {
    if f in Leaves(failed) { return f; }
    var other :| other in failed && Under(other, f);
    var longer, longest := (set g | g in failed && |g.name| > |f.name|), set g | g in failed && |g.name| > |other.name|;
    assert other in longer && other !in longest && longest <= longer;
    l := HasLeaf(failed, other);
    if Under(l, other) { UnderTransitive(l, other, f); }
  }

  /** Reported tests are the one antichain of failed tests that covers every failed test by itself or a subtest. */
  lemma {:induction false} LeavesIff(failed: set<TestName>, tests: set<TestName>)
    ensures tests == Leaves(failed) <==> tests <= failed && Antichain(tests) && Covers(tests, failed)
  {
    forall f | f in failed ensures Covered(Leaves(failed), f) {
      var l := HasLeaf(failed, f);
    }
    if tests <= failed && Antichain(tests) && Covers(tests, failed) {
      OnlyLeaves(failed, tests);
    }
  }

  lemma {:induction false} NothingUnder(failed: set<TestName>, tests: set<TestName>, t: TestName, other: TestName)
    requires Antichain(tests) && Covers(tests, failed) && t in tests && other in failed
    ensures !Under(other, t)
  {
    assert Covered(tests, other);
    var a :| a in tests && CoveredBy(a, other);
    assert !Under(a, t);
    if Under(a, other) && Under(other, t) { UnderTransitive(a, other, t); }
  }

  lemma {:induction false} OnlyLeaves(failed: set<TestName>, tests: set<TestName>)
    requires tests <= failed && Antichain(tests) && Covers(tests, failed)
    ensures tests == Leaves(failed)
  {
    forall t, other | t in tests && other in failed ensures !Under(other, t) {
      NothingUnder(failed, tests, t, other);
    }
    forall t | t in Leaves(failed) ensures t in tests {
      assert Covered(tests, t);
      var a :| a in tests && CoveredBy(a, t);
      assert a in failed;
    }
  }

  /** With a NUL in a package name two different failures can share a key, and one goes unreported. */
  lemma {:induction false} NulPackageLosesATest()
    ensures var events := [Event("fail", "a\0b", "c", ""), Event("fail", "a", "b\0c", "")];
      TestName("a\0b", "c") in FailedTests(events) && !Covers(Leaves(FailMap(events).Values), FailedTests(events))
  {
    var first, second := Event("fail", "a\0b", "c", ""), Event("fail", "a", "b\0c", "");
    var events := [first, second];
    assert Key(first.pkg, first.test) == Key(second.pkg, second.test) by {
      assert "a\0b" + "\0" + "c" == "a" + "\0" + "b\0c";
    }
    assert events[..1] == [first] && [first][..0] == [];
    assert FailMap([first]) == map[Key(first.pkg, first.test) := NameOf(first)];
    assert FailMap(events) == map[Key(second.pkg, second.test) := NameOf(second)];
    assert first in events && NameOf(first) in FailedTests(events);
    assert !Covered(Leaves(FailMap(events).Values), NameOf(first)) by {
      forall l | l in Leaves(FailMap(events).Values) ensures !CoveredBy(l, NameOf(first)) {
        assert l == NameOf(second);
        assert |second.pkg| != |first.pkg|;
      }
    }
  }

  /******* What is tallied *******/

  // The events of the lines, in order: every line that is not blank and parses.
  function Events(parse: string -> Option<Event>, lines: seq<string>): seq<Event> {
    if lines == [] then []
    else
      var before, line := Events(parse, Init(lines)), Last(lines);
      if Blank(line) || parse(line).None? then before else before + [parse(line).value]
  }

  function Of(events: seq<Event>, action: string): seq<Event> {
    if events == [] then []
    else
      var last := events[|events| - 1];
      Of(events[..|events| - 1], action) + if last.action == action then [last] else []
  }

  function AllOutput(events: seq<Event>): string {
    if events == [] then "" else AllOutput(events[..|events| - 1]) + events[|events| - 1].output
  }

  // A pass of a test, or of a package.
  predicate PassesTest(e: Event) { e.action == "pass" && e.pkg != "" && e.test != "" }
  predicate PassesPackage(e: Event) { e.action == "pass" && e.pkg != "" && e.test == "" }

  function PassedTests(events: seq<Event>): set<TestName> { set e | e in events && PassesTest(e) :: NameOf(e) }

  // The passes of a run, read as failures: the passed tests are kept in the same kind of map.
  function AsFailures(events: seq<Event>): seq<Event> {
    if events == [] then []
    else
      var last := events[|events| - 1];
      AsFailures(events[..|events| - 1]) + if last.action == "pass" then [last.(action := "fail")] else []
  }

  // What is tallied, in terms of the events alone; of the output a prefix, all of it while it is short.
  ghost predicate Tallies(t: Tally, events: seq<Event>) {
    && t.failures == Of(events, "fail") && t.skipped == |Of(events, "skip")|
    && t.passedPackages == (set e | e in events && PassesPackage(e) :: e.pkg)
    && t.passedTests == FailMap(AsFailures(events))
    && t.output <= AllOutput(events) && (|t.output| < OUTPUT_LIMIT ==> t.output == AllOutput(events))
  }

  lemma {:induction false} TalliesStep(t: Tally, events: seq<Event>, e: Event)
    requires Tallies(t, events)
    ensures Tallies(Record(t, e), events + [e])
  {
    OfAppend(events, e, "fail");
    OfAppend(events, e, "skip");
    PassedAppend(events, e);
    AsFailuresAppend(events, e);
    OutputAppend(t.output, events, e);
    if e.action == "pass" {
      FailMapAppend(AsFailures(events), e.(action := "fail"));
    } else {
      assert AsFailures(events) + [] == AsFailures(events);
    }
    assert Record(t, e).failures == Of(events + [e], "fail");
  }

  lemma {:induction false} OfAppend(events: seq<Event>, e: Event, action: string)
    ensures Of(events + [e], action) == Of(events, action) + if e.action == action then [e] else []
  {
    assert (events + [e])[..|events|] == events;
  }

  lemma {:induction false} PassedAppend(events: seq<Event>, e: Event)
    ensures (set f | f in events + [e] && PassesPackage(f) :: f.pkg)
      == (set f | f in events && PassesPackage(f) :: f.pkg) + if PassesPackage(e) then {e.pkg} else {}
  {
    assert e in events + [e];
  }

  lemma {:induction false} AsFailuresAppend(events: seq<Event>, e: Event)
    ensures AsFailures(events + [e])
      == AsFailures(events) + if e.action == "pass" then [e.(action := "fail")] else []
  {
    assert (events + [e])[..|events|] == events;
  }

  lemma {:induction false} FailMapAppend(events: seq<Event>, e: Event)
    ensures FailMap(events + [e]) ==
      if FailsTest(e) then FailMap(events)[Key(e.pkg, e.test) := NameOf(e)] else FailMap(events)
  {
    assert (events + [e])[..|events|] == events;
  }

  // Output is kept while what is already kept is short.
  lemma {:induction false} OutputAppend(output: string, events: seq<Event>, e: Event)
    requires output <= AllOutput(events) && (|output| < OUTPUT_LIMIT ==> output == AllOutput(events))
    ensures var now := if |output| < OUTPUT_LIMIT then output + e.output else output;
      now <= AllOutput(events + [e]) && (|now| < OUTPUT_LIMIT ==> now == AllOutput(events + [e]))
  {
    assert (events + [e])[..|events|] == events;
  }

  /**
   A run tallies its failed events in order, counts its skips, and knows exactly the packages that passed; it is marked
   broken exactly when some line is neither blank nor an event.
   */
  lemma {:induction false} TallyIff(parse: string -> Option<Event>, lines: seq<string>)
    ensures var t := ConsumeAll(parse, EMPTY, lines);
      && Tallies(t, Events(parse, lines))
      && (t.parseError <==> exists i :: 0 <= i < |lines| && !Blank(lines[i]) && parse(lines[i]).None?)
  {
    if lines == [] {
      assert FailMap(AsFailures([])) == map[];
    } else {
      var init, line := Init(lines), Last(lines);
      TallyIff(parse, init);
      assert lines == init + [line];
      var before := ConsumeAll(parse, EMPTY, init);
      if !Blank(line) && parse(line).Some? { TalliesStep(before, Events(parse, init), parse(line).value); }
      if !Blank(line) && parse(line).None? { assert lines[|init|] == line; }
      BrokenStep(parse, lines);
    }
  }

  lemma {:induction false} BrokenStep(parse: string -> Option<Event>, lines: seq<string>)
    requires lines != []
    ensures (exists i :: 0 <= i < |lines| && !Blank(lines[i]) && parse(lines[i]).None?) <==>
      (exists i :: 0 <= i < |Init(lines)| && !Blank(Init(lines)[i]) && parse(Init(lines)[i]).None?)
      || (!Blank(Last(lines)) && parse(Last(lines)).None?)
  {
    if i :| 0 <= i < |lines| && !Blank(lines[i]) && parse(lines[i]).None? {
      if i < |Init(lines)| { assert Init(lines)[i] == lines[i]; }
    }
    if i :| 0 <= i < |Init(lines)| && !Blank(Init(lines)[i]) && parse(Init(lines)[i]).None? {
      assert Init(lines)[i] == lines[i];
    }
  }

  lemma {:induction false} AsFailuresIff(events: seq<Event>, e: Event)
    ensures e in AsFailures(events) <==> e.action == "fail" && e.(action := "pass") in events
  {
    if events != [] {
      var init, last := events[..|events| - 1], events[|events| - 1];
      AsFailuresIff(init, e);
      assert events == init + [last];
    }
  }

  // No two different passed tests are stored under one key.
  ghost predicate NoPassCollision(events: seq<Event>) {
    forall e, f ::
      e in events && f in events && PassesTest(e) && PassesTest(f) && Key(e.pkg, e.test) == Key(f.pkg, f.test) ==>
        NameOf(e) == NameOf(f)
  }

  /** The passed tests a run reports are exactly those with a pass event, if and only if no two of them share a key. */
  lemma {:induction false} PassedTestsIff(parse: string -> Option<Event>, lines: seq<string>)
    ensures var events := Events(parse, lines);
      ConsumeAll(parse, EMPTY, lines).passedTests.Values == PassedTests(events) <==> NoPassCollision(events)
  {
    var events := Events(parse, lines);
    var turned := AsFailures(events);
    TallyIff(parse, lines);
    MapHoldsFailuresIff(turned);
    assert FailedTests(turned) == PassedTests(events) by { SameTests(events); }
    assert NoCollision(turned) <==> NoPassCollision(events) by { SameCollisions(events); }
  }

  lemma {:induction false} SameTests(events: seq<Event>)
    ensures FailedTests(AsFailures(events)) == PassedTests(events)
  {
    forall t | t in FailedTests(AsFailures(events)) ensures t in PassedTests(events) {
      var e :| e in AsFailures(events) && FailsTest(e) && NameOf(e) == t;
      AsFailuresIff(events, e);
      assert NameOf(e.(action := "pass")) == t;
    }
    forall t | t in PassedTests(events) ensures t in FailedTests(AsFailures(events)) {
      var e :| e in events && PassesTest(e) && NameOf(e) == t;
      Turned(events, e);
      assert NameOf(e.(action := "fail")) == t;
    }
  }

  lemma {:induction false} Turned(events: seq<Event>, e: Event)
    requires e in events && e.action == "pass"
    ensures e.(action := "fail") in AsFailures(events)
  {
    AsFailuresIff(events, e.(action := "fail"));
    assert e.(action := "fail").(action := "pass") == e;
  }

  lemma {:induction false} SameCollisions(events: seq<Event>)
    ensures NoCollision(AsFailures(events)) <==> NoPassCollision(events)
  {
    if NoCollision(AsFailures(events)) {
      forall e, f |
        e in events && f in events && PassesTest(e) && PassesTest(f) && Key(e.pkg, e.test) == Key(f.pkg, f.test)
        ensures NameOf(e) == NameOf(f)
      {
        Turned(events, e);
        Turned(events, f);
        var g, h := e.(action := "fail"), f.(action := "fail");
        assert NameOf(g) == NameOf(h);
      }
    }
    if NoPassCollision(events) {
      forall e, f |
        e in AsFailures(events) && f in AsFailures(events) && FailsTest(e) && FailsTest(f)
        && Key(e.pkg, e.test) == Key(f.pkg, f.test)
        ensures NameOf(e) == NameOf(f)
      {
        AsFailuresIff(events, e);
        AsFailuresIff(events, f);
        var g, h := e.(action := "pass"), f.(action := "pass");
        assert NameOf(g) == NameOf(h);
      }
    }
  }

  /******* Verdict *******/

  predicate Resolves(code: Option<int>, t: Tally) {
    && !t.parseError && code == Some(0) && t.skipped == 0
    && Leaves(FailMap(t.failures).Values) == {} && FailedPackages(t.failures) == {}
  }

  // No skip, and no fail that names a package: a fail without a package is in neither list of failures.
  predicate CleanEvent(e: Event) { e.action != "skip" && !FailsTest(e) && !FailsPackage(e) }

  predicate Clean(parse: string -> Option<Event>, line: string) {
    Blank(line) || (parse(line).Some? && CleanEvent(parse(line).value))
  }

  lemma {:induction false} NoLeavesIff(events: seq<Event>)
    ensures Leaves(FailMap(events).Values) == {} <==> forall e :: e in events ==> !FailsTest(e)
  {
    var failed := FailMap(events).Values;
    if failed != {} {
      var f :| f in failed;
      var l := HasLeaf(failed, f);
    }
    MapEmptyIff(events);
  }

  lemma {:induction false} MapEmptyIff(events: seq<Event>)
    ensures FailMap(events).Values == {} <==> forall e :: e in events ==> !FailsTest(e)
  {
    if events == [] {
    } else {
      var init, e := events[..|events| - 1], events[|events| - 1];
      assert events == init + [e];
      MapEmptyIff(init);
      if FailsTest(e) {
        assert Key(e.pkg, e.test) in FailMap(events);
        assert FailMap(events)[Key(e.pkg, e.test)] in FailMap(events).Values;
        assert e in events;
      }
    }
  }

  ghost predicate CleanTally(t: Tally) {
    !t.parseError && t.skipped == 0 && forall e :: e in t.failures ==> !FailsTest(e) && !FailsPackage(e)
  }

  lemma {:induction false} CleanTallyIff(parse: string -> Option<Event>, lines: seq<string>)
    ensures CleanTally(ConsumeAll(parse, EMPTY, lines)) <==> forall i :: 0 <= i < |lines| ==> Clean(parse, lines[i])
  {
    if lines != [] {
      CleanTallyIff(parse, Init(lines));
      CleanStep(parse, ConsumeAll(parse, EMPTY, Init(lines)), Last(lines));
    }
  }

  lemma {:induction false} CleanStep(parse: string -> Option<Event>, t: Tally, line: string)
    ensures CleanTally(Consume(parse, t, line)) <==> CleanTally(t) && Clean(parse, line)
  {
    if !Blank(line) && parse(line).Some? {
      var e := parse(line).value;
      if e.action == "fail" {
        assert e in (t.failures + [e]);
        assert forall f :: f in t.failures ==> f in t.failures + [e];
      }
    }
  }

  /**
   The run resolves exactly when Go exited 0 and every line is blank or an event that is no skip and no fail that
   names a package.
   */
  lemma {:induction false} ResolvesIff(parse: string -> Option<Event>, code: Option<int>, text: string)
    ensures Resolves(code, ConsumeAll(parse, EMPTY, Split(text)))
      <==> code == Some(0) && forall i :: 0 <= i < |Split(text)| ==> Clean(parse, Split(text)[i])
  {
    var t := ConsumeAll(parse, EMPTY, Split(text));
    CleanTallyIff(parse, Split(text));
    NoLeavesIff(t.failures);
    assert FailedPackages(t.failures) == {} <==> forall e :: e in t.failures ==> !FailsPackage(e) by {
      forall e | e in t.failures && FailsPackage(e) ensures e.pkg in FailedPackages(t.failures) { }
    }
  }

  /** So a fail that names no package does not keep the run from resolving. */
  lemma {:induction false} FailWithoutPackageResolves(parse: string -> Option<Event>, text: string)
    requires Split(text) == [text] && parse(text) == Some(Event("fail", "", "", ""))
    ensures Resolves(Some(0), ConsumeAll(parse, EMPTY, Split(text)))
  {
    ResolvesIff(parse, Some(0), text);
  }
}
