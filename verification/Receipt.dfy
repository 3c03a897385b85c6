/**
 The candidate receipt: its validator, the texts it is written to and read from, and what JavaScript's
 String(...) does to the loosely typed fields.  Values are JSON trees, as JSON.parse builds them.
 */
module Receipt {
  import opened Json
  import opened JsonRoundTrip

  function AsciiUnit(c: char): (u: Unit)
    ensures u < 128
  {
    if c as int < 128 then c as int else 0x3F
  }

  // Source literals, all of them ASCII, as code units.
  function Ascii(s: string): (t: Text)
    ensures |t| == |s|
    ensures AsciiText(t)
  {
    seq(|s|, i requires 0 <= i < |s| => AsciiUnit(s[i]))
  }

  predicate AsciiText(t: Text) {
    forall i :: 0 <= i < |t| ==> t[i] < 128
  }

  const PRODUCT_REPOSITORY := "gaofeng21cn/one-person-lab-cloud"
  const CLOUD_IMAGE_REPOSITORY := "ghcr.io/gaofeng21cn/one-person-lab-cloud"
  const PLATFORMS := ["linux/amd64", "linux/arm64"]
  const PORTABLE_ASSETS := [
    "compose.yaml",
    "compose.deployment-platform-owned.yaml",
    "compose.deployment-managed-tke.yaml",
    "compose.deployment-customer-owned.yaml",
    "compose.fabric-local-docker.yaml",
    "compose.fabric-tencent-tke.yaml",
    "compose.local-workspace.yaml",
    "opl-cloud.env.example"
  ]
  const RECEIPT_KEYS := ["schemaVersion", "kind", "product", "cloudImage", "assets", "provenance"]
  const PRODUCT_KEYS := ["repository", "sha", "tree"]
  const CLOUD_IMAGE_KEYS := ["repository", "indexRef", "indexDigest", "revision", "platforms"]
  const PLATFORM_KEYS := ["platform", "digest"]
  const ASSET_KEYS := ["name", "sha256"]
  const PROVENANCE_KEYS := ["workflowRepository", "workflowSha", "workflowRunId", "workflowRunAttempt"]

  /******* Member access *******/

  function Lookup(ms: seq<Member>, k: Text): Json {
    if ms == [] then Null else if ms[0].key == k then ms[0].value else Lookup(ms[1..], k)
  }

  function Get(v: Json, name: string): Json {
    if v.Obj? then Lookup(v.members, Ascii(name)) else Null
  }

  // exactKeys: on distinct member names, equal sorted name lists.
  predicate ExactKeys(v: Json, names: seq<string>) {
    && v.Obj?
    && |v.members| == |names|
    && (forall i :: 0 <= i < |names| ==> HasKey(v.members, Ascii(names[i])))
    && (forall j :: 0 <= j < |v.members| ==> Named(v.members[j].key, names))
  }

  predicate Named(k: Text, names: seq<string>) {
    exists i :: 0 <= i < |names| && Ascii(names[i]) == k
  }

  /******* String(value) *******/

  function JsString(v: Json): Text
    decreases v, 0
  {
    match v
    case Null => NULL_TEXT
    case Bool(b) => if b then TRUE_TEXT else FALSE_TEXT
    case Num(t) => t
    case Infinite(negative) => (if negative then [MINUS] else []) + Ascii("Infinity")
    case Str(s) => s
    case Arr(items) => JoinItems(items)
    case Obj(_) => Ascii("[object Object]")
  }

  // Array.prototype.join(","): null elements print as nothing.
  function JoinItems(items: seq<Json>): Text
    decreases items, 1
  {
    if items == [] then []
    else
      var head := if items[0].Null? then [] else JsString(items[0]);
      if |items| == 1 then head else head + [COMMA] + JoinItems(items[1..])
  }

  predicate Falsy(v: Json) {
    v == Null || v == Bool(false) || v == Num([ZERO]) || v == Str([])
  }

  // String(v || "")
  function ScalarText(v: Json): Text {
    if Falsy(v) then [] else JsString(v)
  }

  // `===` between parts of a parsed value: objects and arrays are only equal to themselves.
  predicate StrictEqual(a: Json, b: Json) {
    a == b && !a.Arr? && !a.Obj?
  }

  /******* validateCloudCandidateReceipt *******/

  predicate IsLowerHex(c: Unit) { 0x30 <= c <= 0x39 || 0x61 <= c <= 0x66 }

  predicate HexText(t: Text, n: nat) {
    |t| == n && forall i :: 0 <= i < |t| ==> IsLowerHex(t[i])
  }

  predicate DigestText(t: Text) {
    |t| == 71 && t[..7] == Ascii("sha256:") && HexText(t[7..], 64)
  }

  predicate PositiveDecimal(t: Text) {
    t != [] && 0x31 <= t[0] <= 0x39 && forall i :: 0 <= i < |t| ==> IsDigit(t[i])
  }

  predicate ValidProduct(p: Json) {
    && ExactKeys(p, PRODUCT_KEYS)
    && Get(p, "repository") == Str(Ascii(PRODUCT_REPOSITORY))
    && HexText(ScalarText(Get(p, "sha")), 40)
    && HexText(ScalarText(Get(p, "tree")), 40)
  }

  predicate ValidPlatform(e: Json, name: string) {
    && ExactKeys(e, PLATFORM_KEYS)
    && Get(e, "platform") == Str(Ascii(name))
    && DigestText(ScalarText(Get(e, "digest")))
  }

  predicate ValidImage(c: Json, sha: Json) {
    && ExactKeys(c, CLOUD_IMAGE_KEYS)
    && Get(c, "repository") == Str(Ascii(CLOUD_IMAGE_REPOSITORY))
    && DigestText(ScalarText(Get(c, "indexDigest")))
    && Get(c, "indexRef") == Str(Ascii(CLOUD_IMAGE_REPOSITORY) + [0x40] + JsString(Get(c, "indexDigest")))
    && StrictEqual(Get(c, "revision"), sha)
    && ValidPlatforms(Get(c, "platforms"), Get(c, "indexDigest"))
  }

  predicate ValidPlatforms(ps: Json, indexDigest: Json) {
    && ps.Arr? && |ps.items| == |PLATFORMS|
    && ValidPlatform(ps.items[0], PLATFORMS[0])
    && ValidPlatform(ps.items[1], PLATFORMS[1])
    && !StrictEqual(indexDigest, Get(ps.items[0], "digest"))
    && !StrictEqual(indexDigest, Get(ps.items[1], "digest"))
    && !StrictEqual(Get(ps.items[0], "digest"), Get(ps.items[1], "digest"))
  }

  predicate ValidAsset(a: Json, name: string) {
    && ExactKeys(a, ASSET_KEYS)
    && Get(a, "name") == Str(Ascii(name))
    && HexText(ScalarText(Get(a, "sha256")), 64)
  }

  predicate ValidAssets(assets: Json) {
    && assets.Arr? && |assets.items| == |PORTABLE_ASSETS|
    && forall i :: 0 <= i < |PORTABLE_ASSETS| ==> ValidAsset(assets.items[i], PORTABLE_ASSETS[i])
  }

  predicate ValidProvenance(p: Json) {
    && ExactKeys(p, PROVENANCE_KEYS)
    && Get(p, "workflowRepository") == Str(Ascii(PRODUCT_REPOSITORY))
    && HexText(ScalarText(Get(p, "workflowSha")), 40)
    && PositiveDecimal(ScalarText(Get(p, "workflowRunId")))
    && PositiveDecimal(ScalarText(Get(p, "workflowRunAttempt")))
  }

  predicate ValidReceipt(v: Json) {
    && ExactKeys(v, RECEIPT_KEYS)
    && Get(v, "schemaVersion") == Num([0x32])
    && Get(v, "kind") == Str(Ascii("opl_cloud_candidate"))
    && ValidProduct(Get(v, "product"))
    && ValidImage(Get(v, "cloudImage"), Get(Get(v, "product"), "sha"))
    && ValidAssets(Get(v, "assets"))
    && ValidProvenance(Get(v, "provenance"))
  }

  /******* The loosely typed fields are harmless *******/

  // Characters of the digests, hashes and run numbers the validator lets through.
  predicate TokenChar(c: Unit) { IsDigit(c) || 0x61 <= c <= 0x7A || c == COLON }

  predicate TokenText(t: Text) {
    forall i :: 0 <= i < |t| ==> TokenChar(t[i])
  }

  // A scalar or nested array whose every string is a token: no object, no infinity.
  ghost predicate TokenValue(v: Json)
    decreases v
  {
    match v
    case Str(s) => TokenText(s)
    case Arr(items) => forall i :: 0 <= i < |items| ==> TokenValue(items[i])
    case Obj(_) => false
    case Infinite(_) => false
    case _ => true
  }

  lemma {:induction false} TokenTextParts(a: Text, b: Text)
    requires TokenText(a + b)
    ensures TokenText(a) && TokenText(b)
  {
    forall i | 0 <= i < |a| ensures TokenChar(a[i]) { assert (a + b)[i] == a[i]; }
    forall i | 0 <= i < |b| ensures TokenChar(b[i]) { assert (a + b)[|a| + i] == b[i]; }
  }

  lemma {:induction false} WordsAreNotTokens()
    ensures !TokenText(Ascii("Infinity")) && !TokenText(Ascii("[object Object]")) && !TokenText([COMMA])
  {
    assert !TokenChar(Ascii("Infinity")[0]) && !TokenChar(Ascii("[object Object]")[0]) && !TokenChar([COMMA][0]);
  }

  lemma {:induction false} TokenStringMeansTokenValue(v: Json)
    requires TokenText(JsString(v))
    ensures TokenValue(v)
    decreases v, 0
  {
    match v
    case Infinite(negative) =>
      TokenTextParts(if negative then [MINUS] else [], Ascii("Infinity"));
      WordsAreNotTokens();
      assert false;
    case Obj(_) =>
      WordsAreNotTokens();
      assert false;
    case Arr(items) => TokenJoinMeansTokenValues(items);
    case _ =>
  }

  lemma {:induction false} TokenJoinMeansTokenValues(items: seq<Json>)
    requires TokenText(JoinItems(items))
    ensures forall i :: 0 <= i < |items| ==> TokenValue(items[i])
    decreases items, 1
  {
    if items != [] {
      var head := if items[0].Null? then [] else JsString(items[0]);
      if |items| > 1 {
        var more := JoinItems(items[1..]);
        TokenTextParts(head + [COMMA], more);
        TokenTextParts(head, [COMMA]);
        WordsAreNotTokens();
        assert false;
      }
      if !items[0].Null? {
        TokenStringMeansTokenValue(items[0]);
      }
    }
  }

  lemma {:induction false} NormalOfToken(v: Json)
    requires TokenValue(v)
    ensures Normal(v) == v
    decreases v
  {
    if v.Arr? {
      forall i | 0 <= i < |v.items| ensures NormalItems(v.items)[i] == v.items[i] {
        NormalItemsAt(v.items, i);
        NormalOfToken(v.items[i]);
      }
      assert NormalItems(v.items) == v.items;
    }
  }

  lemma {:induction false} HexIsToken(t: Text, n: nat)
    requires HexText(t, n)
    ensures TokenText(t)
  {
  }

  lemma {:induction false} DigestIsToken(t: Text)
    requires DigestText(t)
    ensures TokenText(t)
  {
    HexIsToken(t[7..], 64);
    var prefix := Ascii("sha256:");
    assert prefix == [0x73, 0x68, 0x61, 0x32, 0x35, 0x36, 0x3A];
    assert t == t[..7] + t[7..];
  }

  // A field that passes one of the patterns is a token value, so sorting members cannot touch it.
  lemma {:induction false} PatternField(v: Json)
    requires ScalarText(v) != []
    requires TokenText(ScalarText(v))
    ensures TokenValue(v) && Normal(v) == v
  {
    TokenStringMeansTokenValue(v);
    NormalOfToken(v);
  }

  lemma {:induction false} HexField(v: Json, n: nat)
    requires n > 0 && HexText(ScalarText(v), n)
    ensures TokenValue(v) && Normal(v) == v
  {
    HexIsToken(ScalarText(v), n);
    PatternField(v);
  }

  lemma {:induction false} DigestField(v: Json)
    requires DigestText(ScalarText(v))
    ensures TokenValue(v) && Normal(v) == v
  {
    DigestIsToken(ScalarText(v));
    PatternField(v);
  }

  lemma {:induction false} DecimalField(v: Json)
    requires PositiveDecimal(ScalarText(v))
    ensures TokenValue(v) && Normal(v) == v
  {
    PatternField(v);
  }

  /******* Member order does not matter to the validator *******/

  lemma {:induction false} LookupAt(ms: seq<Member>, i: nat)
    requires DistinctKeys(ms) && i < |ms|
    ensures Lookup(ms, ms[i].key) == ms[i].value
  {
    if i > 0 {
      assert ms[0].key != ms[i].key;
      LookupAt(ms[1..], i - 1);
    }
  }

  lemma {:induction false} NormalDistinct(ms: seq<Member>)
    requires DistinctKeys(ms)
    ensures DistinctKeys(NormalMembers(SortMembers(ms)))
  {
    var sorted := SortMembers(ms);
    var ns := NormalMembers(sorted);
    SortSorted(ms);
    forall i, j | 0 <= i < j < |ns| ensures ns[i].key != ns[j].key {
      NormalMembersAt(sorted, i);
      NormalMembersAt(sorted, j);
      LexTotal(sorted[i].key, sorted[j].key);
    }
  }

  lemma {:induction false} NormalGet(v: Json, name: string, num: Text -> Json)
    requires v.Obj? && Wf(v, num) && HasKey(v.members, Ascii(name))
    ensures Normal(v).Obj? && HasKey(Normal(v).members, Ascii(name))
    ensures Get(Normal(v), name) == Normal(Get(v, name))
  {
    var ms, k := v.members, Ascii(name);
    var i :| 0 <= i < |ms| && ms[i].key == k;
    LookupAt(ms, i);
    var j := SortedPlace(ms, i);
    var sorted := SortMembers(ms);
    NormalMembersAt(sorted, j);
    NormalDistinct(ms);
    LookupAt(NormalMembers(sorted), j);
  }

  lemma {:induction false} NormalExactKeys(v: Json, names: seq<string>, num: Text -> Json)
    requires Wf(v, num) && ExactKeys(v, names)
    ensures ExactKeys(Normal(v), names)
  {
    forall i | 0 <= i < |names| ensures HasKey(Normal(v).members, Ascii(names[i])) {
      NormalGet(v, names[i], num);
    }
    var sorted := SortMembers(v.members);
    forall j | 0 <= j < |sorted| ensures Named(Normal(v).members[j].key, names) {
      NormalMembersAt(sorted, j);
      var i := UnsortedPlace(v.members, j);
    }
  }

  // What sorting does to the member under one of the expected names.
  lemma {:induction false} NormalMember(v: Json, names: seq<string>, name: string, num: Text -> Json)
    requires Wf(v, num) && ExactKeys(v, names) && name in names
    ensures Get(Normal(v), name) == Normal(Get(v, name))
    ensures Wf(Get(v, name), num)
  {
    var i :| 0 <= i < |names| && names[i] == name;
    assert HasKey(v.members, Ascii(names[i]));
    NormalGet(v, name, num);
    var j :| 0 <= j < |v.members| && v.members[j].key == Ascii(name);
    LookupAt(v.members, j);
  }

  lemma {:induction false} NormalProduct(p: Json, num: Text -> Json)
    requires Wf(p, num) && ValidProduct(p)
    ensures ValidProduct(Normal(p))
    ensures Get(Normal(p), "sha") == Get(p, "sha")
  {
    NormalExactKeys(p, PRODUCT_KEYS, num);
    NormalMember(p, PRODUCT_KEYS, "repository", num);
    NormalMember(p, PRODUCT_KEYS, "sha", num);
    NormalMember(p, PRODUCT_KEYS, "tree", num);
    HexField(Get(p, "sha"), 40);
    HexField(Get(p, "tree"), 40);
  }

  lemma {:induction false} NormalPlatform(e: Json, name: string, num: Text -> Json)
    requires Wf(e, num) && ValidPlatform(e, name)
    ensures ValidPlatform(Normal(e), name)
    ensures Get(Normal(e), "digest") == Get(e, "digest")
  {
    NormalExactKeys(e, PLATFORM_KEYS, num);
    NormalMember(e, PLATFORM_KEYS, "platform", num);
    NormalMember(e, PLATFORM_KEYS, "digest", num);
    DigestField(Get(e, "digest"));
  }

  lemma {:induction false} NormalPlatforms(ps: Json, d: Json, num: Text -> Json)
    requires Wf(ps, num) && ValidPlatforms(ps, d)
    ensures ValidPlatforms(Normal(ps), d)
  {
    NormalItemsAt(ps.items, 0);
    NormalItemsAt(ps.items, 1);
    NormalPlatform(ps.items[0], PLATFORMS[0], num);
    NormalPlatform(ps.items[1], PLATFORMS[1], num);
  }

  lemma {:induction false} NormalImageMembers(c: Json, sha: Json, num: Text -> Json)
    requires Wf(c, num) && ValidImage(c, sha) && !sha.Infinite?
    ensures Get(Normal(c), "repository") == Get(c, "repository")
    ensures Get(Normal(c), "indexRef") == Get(c, "indexRef")
    ensures Get(Normal(c), "indexDigest") == Get(c, "indexDigest")
    ensures Get(Normal(c), "revision") == Get(c, "revision")
    ensures Get(Normal(c), "platforms") == Normal(Get(c, "platforms")) && Wf(Get(c, "platforms"), num)
  {
    assert Get(Normal(c), "repository") == Get(c, "repository") by {
      KeptString(c, CLOUD_IMAGE_KEYS, "repository", num);
    }
    assert Get(Normal(c), "indexRef") == Get(c, "indexRef") by { KeptString(c, CLOUD_IMAGE_KEYS, "indexRef", num); }
    assert Get(Normal(c), "indexDigest") == Get(c, "indexDigest") by {
      NormalMember(c, CLOUD_IMAGE_KEYS, "indexDigest", num);
      DigestField(Get(c, "indexDigest"));
    }
    assert Get(Normal(c), "revision") == Get(c, "revision") by { NormalMember(c, CLOUD_IMAGE_KEYS, "revision", num); }
    NormalMember(c, CLOUD_IMAGE_KEYS, "platforms", num);
  }

  lemma {:induction false} KeptString(v: Json, names: seq<string>, name: string, num: Text -> Json)
    requires Wf(v, num) && ExactKeys(v, names) && name in names && Get(v, name).Str?
    ensures Get(Normal(v), name) == Get(v, name)
  {
    NormalMember(v, names, name, num);
  }

  lemma {:induction false} NormalImage(c: Json, sha: Json, num: Text -> Json)
    requires Wf(c, num) && ValidImage(c, sha) && !sha.Infinite?
    ensures ValidImage(Normal(c), sha)
  {
    NormalExactKeys(c, CLOUD_IMAGE_KEYS, num);
    NormalImageMembers(c, sha, num);
    NormalPlatforms(Get(c, "platforms"), Get(c, "indexDigest"), num);
  }

  lemma {:induction false} NormalAsset(a: Json, name: string, num: Text -> Json)
    requires Wf(a, num) && ValidAsset(a, name)
    ensures ValidAsset(Normal(a), name)
    ensures Get(Normal(a), "sha256") == Get(a, "sha256")
  {
    NormalExactKeys(a, ASSET_KEYS, num);
    NormalMember(a, ASSET_KEYS, "name", num);
    NormalMember(a, ASSET_KEYS, "sha256", num);
    HexField(Get(a, "sha256"), 64);
  }

  lemma {:induction false} NormalAssets(assets: Json, num: Text -> Json)
    requires Wf(assets, num) && ValidAssets(assets)
    ensures ValidAssets(Normal(assets))
    ensures forall i :: 0 <= i < |PORTABLE_ASSETS| ==>
      Get(Normal(assets).items[i], "sha256") == Get(assets.items[i], "sha256")
  {
    forall i | 0 <= i < |PORTABLE_ASSETS|
      ensures ValidAsset(Normal(assets).items[i], PORTABLE_ASSETS[i])
      ensures Get(Normal(assets).items[i], "sha256") == Get(assets.items[i], "sha256")
    {
      NormalItemsAt(assets.items, i);
      NormalAsset(assets.items[i], PORTABLE_ASSETS[i], num);
    }
  }

  lemma {:induction false} NormalProvenance(p: Json, num: Text -> Json)
    requires Wf(p, num) && ValidProvenance(p)
    ensures ValidProvenance(Normal(p))
  {
    NormalExactKeys(p, PROVENANCE_KEYS, num);
    NormalMember(p, PROVENANCE_KEYS, "workflowRepository", num);
    NormalMember(p, PROVENANCE_KEYS, "workflowSha", num);
    NormalMember(p, PROVENANCE_KEYS, "workflowRunId", num);
    NormalMember(p, PROVENANCE_KEYS, "workflowRunAttempt", num);
    HexField(Get(p, "workflowSha"), 40);
    DecimalField(Get(p, "workflowRunId"));
    DecimalField(Get(p, "workflowRunAttempt"));
  }

  /** Reordering members keeps a receipt valid and keeps its asset hashes. */
  lemma {:induction false} NormalReceipt(v: Json, num: Text -> Json)
    requires Wf(v, num) && ValidReceipt(v)
    ensures ValidReceipt(Normal(v))
    ensures Get(Normal(v), "assets") == Normal(Get(v, "assets"))
  {
    NormalReceiptMembers(v, num);
    var n := Normal(v);
    assert Get(n, "schemaVersion") == Num([0x32]) && Get(n, "kind") == Str(Ascii("opl_cloud_candidate"));
    assert ValidProduct(Get(n, "product")) && ValidImage(Get(n, "cloudImage"), Get(Get(n, "product"), "sha")) by {
      NormalSource(Get(v, "product"), Get(v, "cloudImage"), num);
    }
    assert ValidAssets(Get(n, "assets")) by { NormalAssets(Get(v, "assets"), num); }
    assert ValidProvenance(Get(n, "provenance")) by { NormalProvenance(Get(v, "provenance"), num); }
  }

  lemma {:induction false} NormalSource(p: Json, c: Json, num: Text -> Json)
    requires Wf(p, num) && Wf(c, num) && ValidProduct(p) && ValidImage(c, Get(p, "sha"))
    ensures ValidProduct(Normal(p)) && ValidImage(Normal(c), Get(Normal(p), "sha"))
  {
    NormalProduct(p, num);
    HexField(Get(p, "sha"), 40);
    NormalImage(c, Get(p, "sha"), num);
  }

  lemma {:induction false} NormalReceiptMembers(v: Json, num: Text -> Json)
    requires Wf(v, num) && ExactKeys(v, RECEIPT_KEYS)
    ensures ExactKeys(Normal(v), RECEIPT_KEYS)
    ensures KeptMember(v, "schemaVersion", num) && KeptMember(v, "kind", num) && KeptMember(v, "product", num)
    ensures KeptMember(v, "cloudImage", num) && KeptMember(v, "assets", num) && KeptMember(v, "provenance", num)
  {
    NormalExactKeys(v, RECEIPT_KEYS, num);
    MemberKept(v, RECEIPT_KEYS, 0, num);
    MemberKept(v, RECEIPT_KEYS, 1, num);
    MemberKept(v, RECEIPT_KEYS, 2, num);
    MemberKept(v, RECEIPT_KEYS, 3, num);
    MemberKept(v, RECEIPT_KEYS, 4, num);
    MemberKept(v, RECEIPT_KEYS, 5, num);
  }

  lemma {:induction false} MemberKept(v: Json, names: seq<string>, i: nat, num: Text -> Json)
    requires Wf(v, num) && ExactKeys(v, names) && i < |names|
    ensures KeptMember(v, names[i], num)
  {
    NormalMember(v, names, names[i], num);
  }

  // Sorting keeps the member of that name, itself well formed.
  ghost predicate KeptMember(v: Json, name: string, num: Text -> Json) {
    Wf(Get(v, name), num) && Get(Normal(v), name) == Normal(Get(v, name))
  }

  /******* Receipts are ASCII *******/

  ghost predicate AsciiValue(v: Json)
    decreases v
  {
    match v
    case Str(s) => AsciiText(s)
    case Num(t) => AsciiText(t)
    case Arr(items) => forall i :: 0 <= i < |items| ==> AsciiValue(items[i])
    case Obj(ms) => forall i :: 0 <= i < |ms| ==> AsciiText(ms[i].key) && AsciiValue(ms[i].value)
    case _ => true
  }

  lemma {:induction false} AsciiEscape(s: Text)
    requires AsciiText(s)
    ensures AsciiText(Escape(s))
  {
    if s != [] {
      AsciiEscape(s[1..]);
      assert !IsHigh(s[0]);
      AsciiEscapeUnit(s[0]);
    }
  }

  lemma {:induction false} AsciiEscapeUnit(c: Unit)
    requires c < 128
    ensures AsciiText(EscapeUnit(c))
  {
  }

  lemma {:induction false} AsciiCanonical(v: Json)
    requires AsciiValue(v)
    ensures AsciiText(Canonical(v))
    decreases Size(v), 0
  {
    match v
    case Str(s) => AsciiEscape(s);
    case Arr(items) => AsciiItems(items);
    case Obj(ms) =>
      var sorted := SortMembers(ms);
      forall i | 0 <= i < |sorted| ensures AsciiText(sorted[i].key) && AsciiValue(sorted[i].value) {
        var j := UnsortedPlace(ms, i);
      }
      AsciiMembers(sorted);
    case _ =>
  }

  lemma {:induction false} AsciiItems(items: seq<Json>)
    requires forall i :: 0 <= i < |items| ==> AsciiValue(items[i])
    ensures AsciiText(CanonicalItems(items))
    decreases ItemsSize(items), 0
  {
    if items != [] {
      AsciiCanonical(items[0]);
      AsciiItems(items[1..]);
    }
  }

  lemma {:induction false} AsciiMembers(ms: seq<Member>)
    requires forall i :: 0 <= i < |ms| ==> AsciiText(ms[i].key) && AsciiValue(ms[i].value)
    ensures AsciiText(CanonicalMembers(ms))
    decreases MembersSize(ms), 1
  {
    if ms != [] {
      AsciiCanonical(ms[0].value);
      AsciiMember(ms[0]);
      AsciiMembers(ms[1..]);
      AsciiJoin(MemberText(ms[0]), [COMMA]);
      AsciiJoin(MemberText(ms[0]) + [COMMA], CanonicalMembers(ms[1..]));
    }
  }

  lemma {:induction false} AsciiJoin(a: Text, b: Text)
    requires AsciiText(a) && AsciiText(b)
    ensures AsciiText(a + b)
  {
  }

  lemma {:induction false} AsciiMember(m: Member)
    requires AsciiText(m.key) && AsciiText(Canonical(m.value))
    ensures AsciiText(MemberText(m))
  {
    AsciiEscape(m.key);
    AsciiJoin([QUOTE], Escape(m.key));
    AsciiJoin([QUOTE] + Escape(m.key), [QUOTE]);
    AsciiJoin(StringText(m.key), [COLON]);
    AsciiJoin(StringText(m.key) + [COLON], Canonical(m.value));
  }

  lemma {:induction false} TokenIsAscii(v: Json, num: Text -> Json)
    requires TokenValue(v) && Wf(v, num)
    ensures AsciiValue(v)
    decreases v
  {
    if v.Arr? {
      forall i | 0 <= i < |v.items| ensures AsciiValue(v.items[i]) {
        TokenIsAscii(v.items[i], num);
      }
    }
  }

  // An object with exactly the named members is ASCII when the value under each name is.
  lemma {:induction false} AsciiObject(v: Json, names: seq<string>, num: Text -> Json)
    requires Wf(v, num) && ExactKeys(v, names)
    requires forall i :: 0 <= i < |names| ==> AsciiValue(Get(v, names[i]))
    ensures AsciiValue(v)
  {
    forall j | 0 <= j < |v.members| ensures AsciiText(v.members[j].key) && AsciiValue(v.members[j].value) {
      assert Named(v.members[j].key, names);
      var i :| 0 <= i < |names| && Ascii(names[i]) == v.members[j].key;
      LookupAt(v.members, j);
      assert Get(v, names[i]) == v.members[j].value;
    }
  }

  lemma {:induction false} TokenMember(v: Json, name: string, names: seq<string>, num: Text -> Json)
    requires Wf(v, num) && ExactKeys(v, names) && name in names
    requires TokenValue(Get(v, name))
    ensures AsciiValue(Get(v, name))
  {
    NormalMember(v, names, name, num);
    TokenIsAscii(Get(v, name), num);
  }

  lemma {:induction false} AsciiProduct(p: Json, num: Text -> Json)
    requires Wf(p, num) && ValidProduct(p)
    ensures AsciiValue(p)
  {
    HexField(Get(p, "sha"), 40);
    HexField(Get(p, "tree"), 40);
    TokenMember(p, "sha", PRODUCT_KEYS, num);
    TokenMember(p, "tree", PRODUCT_KEYS, num);
    forall i | 0 <= i < |PRODUCT_KEYS| ensures AsciiValue(Get(p, PRODUCT_KEYS[i])) {
      assert PRODUCT_KEYS[i] in ["repository", "sha", "tree"];
    }
    AsciiObject(p, PRODUCT_KEYS, num);
  }

  lemma {:induction false} AsciiPlatform(e: Json, name: string, num: Text -> Json)
    requires Wf(e, num) && ValidPlatform(e, name)
    ensures AsciiValue(e)
  {
    DigestField(Get(e, "digest"));
    TokenMember(e, "digest", PLATFORM_KEYS, num);
    forall i | 0 <= i < |PLATFORM_KEYS| ensures AsciiValue(Get(e, PLATFORM_KEYS[i])) {
      assert PLATFORM_KEYS[i] in ["platform", "digest"];
    }
    AsciiObject(e, PLATFORM_KEYS, num);
  }

  lemma {:induction false} AsciiPlatforms(ps: Json, d: Json, num: Text -> Json)
    requires Wf(ps, num) && ValidPlatforms(ps, d)
    ensures AsciiValue(ps)
  {
    AsciiPlatform(ps.items[0], PLATFORMS[0], num);
    AsciiPlatform(ps.items[1], PLATFORMS[1], num);
  }

  lemma {:induction false} AsciiIndexRef(d: Json)
    requires DigestText(ScalarText(d))
    ensures AsciiText(Ascii(CLOUD_IMAGE_REPOSITORY) + [0x40] + JsString(d))
  {
    DigestIsToken(JsString(d));
  }

  lemma {:induction false} AsciiImage(c: Json, sha: Json, num: Text -> Json)
    requires Wf(c, num) && ValidImage(c, sha) && AsciiValue(sha)
    ensures AsciiValue(c)
  {
    assert AsciiValue(Get(c, "repository"));
    assert AsciiValue(Get(c, "indexRef")) by { AsciiIndexRef(Get(c, "indexDigest")); }
    assert AsciiValue(Get(c, "indexDigest")) by {
      DigestField(Get(c, "indexDigest"));
      TokenMember(c, "indexDigest", CLOUD_IMAGE_KEYS, num);
    }
    assert AsciiValue(Get(c, "revision"));
    assert AsciiValue(Get(c, "platforms")) by {
      NormalMember(c, CLOUD_IMAGE_KEYS, "platforms", num);
      AsciiPlatforms(Get(c, "platforms"), Get(c, "indexDigest"), num);
    }
    ImageNames(c);
    AsciiObject(c, CLOUD_IMAGE_KEYS, num);
  }

  lemma {:induction false} ImageNames(c: Json)
    requires AsciiValue(Get(c, "repository")) && AsciiValue(Get(c, "indexRef")) && AsciiValue(Get(c, "indexDigest"))
    requires AsciiValue(Get(c, "revision")) && AsciiValue(Get(c, "platforms"))
    ensures forall i :: 0 <= i < |CLOUD_IMAGE_KEYS| ==> AsciiValue(Get(c, CLOUD_IMAGE_KEYS[i]))
  {
    forall i | 0 <= i < |CLOUD_IMAGE_KEYS| ensures AsciiValue(Get(c, CLOUD_IMAGE_KEYS[i])) {
      assert CLOUD_IMAGE_KEYS[i] in ["repository", "indexRef", "indexDigest", "revision", "platforms"];
    }
  }

  lemma {:induction false} AsciiAsset(a: Json, name: string, num: Text -> Json)
    requires Wf(a, num) && ValidAsset(a, name)
    ensures AsciiValue(a)
  {
    HexField(Get(a, "sha256"), 64);
    TokenMember(a, "sha256", ASSET_KEYS, num);
    forall i | 0 <= i < |ASSET_KEYS| ensures AsciiValue(Get(a, ASSET_KEYS[i])) {
      assert ASSET_KEYS[i] in ["name", "sha256"];
    }
    AsciiObject(a, ASSET_KEYS, num);
  }

  lemma {:induction false} AsciiAssets(assets: Json, num: Text -> Json)
    requires Wf(assets, num) && ValidAssets(assets)
    ensures AsciiValue(assets)
  {
    forall i | 0 <= i < |assets.items| ensures AsciiValue(assets.items[i]) {
      AsciiAsset(assets.items[i], PORTABLE_ASSETS[i], num);
    }
  }

  lemma {:induction false} AsciiProvenance(p: Json, num: Text -> Json)
    requires Wf(p, num) && ValidProvenance(p)
    ensures AsciiValue(p)
  {
    HexField(Get(p, "workflowSha"), 40);
    DecimalField(Get(p, "workflowRunId"));
    DecimalField(Get(p, "workflowRunAttempt"));
    TokenMember(p, "workflowSha", PROVENANCE_KEYS, num);
    TokenMember(p, "workflowRunId", PROVENANCE_KEYS, num);
    TokenMember(p, "workflowRunAttempt", PROVENANCE_KEYS, num);
    forall i | 0 <= i < |PROVENANCE_KEYS| ensures AsciiValue(Get(p, PROVENANCE_KEYS[i])) {
      assert PROVENANCE_KEYS[i] in ["workflowRepository", "workflowSha", "workflowRunId", "workflowRunAttempt"];
    }
    AsciiObject(p, PROVENANCE_KEYS, num);
  }

  /** The canonical text of every valid receipt is ASCII, whatever types its loose fields have. */
  lemma {:induction false} ReceiptIsAscii(v: Json, num: Text -> Json)
    requires Wf(v, num) && ValidReceipt(v)
    ensures AsciiText(Canonical(v))
  {
    assert AsciiValue(v) by {
      assert AsciiValue(Get(v, "product")) && AsciiValue(Get(v, "cloudImage")) by { ReceiptSourceAscii(v, num); }
      assert AsciiValue(Get(v, "assets")) by {
        NormalMember(v, RECEIPT_KEYS, "assets", num);
        AsciiAssets(Get(v, "assets"), num);
      }
      assert AsciiValue(Get(v, "provenance")) by {
        NormalMember(v, RECEIPT_KEYS, "provenance", num);
        AsciiProvenance(Get(v, "provenance"), num);
      }
      ReceiptNames(v);
      AsciiObject(v, RECEIPT_KEYS, num);
    }
    AsciiCanonical(v);
  }

  lemma {:induction false} ReceiptSourceAscii(v: Json, num: Text -> Json)
    requires Wf(v, num) && ValidReceipt(v)
    ensures AsciiValue(Get(v, "product")) && AsciiValue(Get(v, "cloudImage"))
  {
    NormalMember(v, RECEIPT_KEYS, "product", num);
    NormalMember(v, RECEIPT_KEYS, "cloudImage", num);
    var p := Get(v, "product");
    AsciiProduct(p, num);
    assert AsciiValue(Get(p, "sha")) by {
      HexField(Get(p, "sha"), 40);
      TokenMember(p, "sha", PRODUCT_KEYS, num);
    }
    AsciiImage(Get(v, "cloudImage"), Get(p, "sha"), num);
  }

  lemma {:induction false} ReceiptNames(v: Json)
    requires Get(v, "schemaVersion") == Num([0x32]) && Get(v, "kind") == Str(Ascii("opl_cloud_candidate"))
    requires AsciiValue(Get(v, "product")) && AsciiValue(Get(v, "cloudImage"))
    requires AsciiValue(Get(v, "assets")) && AsciiValue(Get(v, "provenance"))
    ensures forall i :: 0 <= i < |RECEIPT_KEYS| ==> AsciiValue(Get(v, RECEIPT_KEYS[i]))
  {
    forall i | 0 <= i < |RECEIPT_KEYS| ensures AsciiValue(Get(v, RECEIPT_KEYS[i])) {
      assert RECEIPT_KEYS[i] in ["schemaVersion", "kind", "product", "cloudImage", "assets", "provenance"];
    }
  }
}
