/**
 The writing side of a candidate receipt: what a build assembles.  The receipts that validate are exactly those that can
 be written so.
 */
module Candidate {
  import opened Json
  import opened JsonRoundTrip
  import opened Receipt

  /******* Objects with given members *******/

  // The same names and values, in the order given.
  function Object(names: seq<string>, values: seq<Json>): Json
    requires |names| == |values|
  {
    Obj(seq(|names|, i requires 0 <= i < |names| => Member(Ascii(names[i]), values[i])))
  }

  ghost predicate TellsApart(names: seq<string>) {
    forall i, j :: 0 <= i < j < |names| ==> Ascii(names[i]) != Ascii(names[j])
  }

  lemma {:induction false} AsciiDiffers(a: string, b: string, k: nat)
    requires |a| != |b| || (k < |a| && a[k] as int < 128 && b[k] as int < 128 && a[k] != b[k])
    ensures Ascii(a) != Ascii(b)
  {
    if |a| == |b| {
      assert Ascii(a)[k] == a[k] as int && Ascii(b)[k] == b[k] as int;
    }
  }

  lemma {:induction false} ObjectFacts(names: seq<string>, values: seq<Json>, num: Text -> Json)
    requires |names| == |values| && TellsApart(names) && forall i :: 0 <= i < |values| ==> Wf(values[i], num)
    ensures ExactKeys(Object(names, values), names) && Wf(Object(names, values), num)
    ensures forall i :: 0 <= i < |names| ==> Get(Object(names, values), names[i]) == values[i]
  {
    var ms := Object(names, values).members;
    assert DistinctKeys(ms);
    forall i | 0 <= i < |names|
      ensures HasKey(ms, Ascii(names[i])) && Get(Object(names, values), names[i]) == values[i]
    {
      assert ms[i].key == Ascii(names[i]);
      LookupAt(ms, i);
    }
    forall j | 0 <= j < |ms| ensures Named(ms[j].key, names) {
      assert Ascii(names[j]) == ms[j].key;
    }
  }

  lemma {:induction false} SmallKeys()
    ensures TellsApart(PRODUCT_KEYS) && TellsApart(PLATFORM_KEYS) && TellsApart(ASSET_KEYS)
  {
    forall i, j | 0 <= i < j < |PRODUCT_KEYS| ensures Ascii(PRODUCT_KEYS[i]) != Ascii(PRODUCT_KEYS[j]) { }
  }

  lemma {:induction false} ImageKeys()
    ensures TellsApart(CLOUD_IMAGE_KEYS)
  {
    AsciiDiffers("indexRef", "revision", 0);
  }

  lemma {:induction false} ProvenanceKeys()
    ensures TellsApart(PROVENANCE_KEYS)
  {
    AsciiDiffers("workflowRepository", "workflowRunAttempt", 9);
  }

  lemma {:induction false} ReceiptKeys()
    ensures TellsApart(RECEIPT_KEYS)
  {
    AsciiDiffers("cloudImage", "provenance", 0);
  }

  function KeySet(ms: seq<Member>): set<Text> { set i | 0 <= i < |ms| :: ms[i].key }

  lemma {:induction false} KeySetSize(ms: seq<Member>)
    requires DistinctKeys(ms)
    ensures |KeySet(ms)| == |ms|
  {
    if ms != [] {
      var init, last := ms[..|ms| - 1], ms[|ms| - 1];
      KeySetSize(init);
      assert KeySet(ms) == KeySet(init) + {last.key};
      assert last.key !in KeySet(init);
    }
  }

  // The i-th member is the i-th value.
  ghost predicate At(v: Json, names: seq<string>, values: seq<Json>, i: nat)
    requires i < |names| == |values|
  {
    Same(Get(v, names[i]), values[i], false)
  }

  ghost predicate AllAt(v: Json, names: seq<string>, values: seq<Json>) {
    |names| == |values| && forall i :: 0 <= i < |names| ==> At(v, names, values, i)
  }

  /** A value is the object with these members, up to their order, exactly when it has those names and values. */
  lemma {:induction false} ObjectIff(v: Json, names: seq<string>, values: seq<Json>)
    requires |names| == |values| && TellsApart(names) && (v.Obj? ==> DistinctKeys(v.members))
    ensures Same(v, Object(names, values), false) <==> ExactKeys(v, names) && AllAt(v, names, values)
  {
    if v.Obj? {
      if Same(v, Object(names, values), false) { ObjectHas(v, names, values); }
      if ExactKeys(v, names) && AllAt(v, names, values) { ObjectFits(v, names, values); }
    }
  }

  lemma {:induction false} ObjectHas(v: Json, names: seq<string>, values: seq<Json>)
    requires |names| == |values| && TellsApart(names) && v.Obj? && DistinctKeys(v.members)
    requires Same(v, Object(names, values), false)
    ensures ExactKeys(v, names) && AllAt(v, names, values)
  {
    var ms, ns := v.members, Object(names, values).members;
    assert DistinctKeys(ns);
    forall i | 0 <= i < |names|
      ensures HasKey(ms, Ascii(names[i])) && At(v, names, values, i)
    {
      assert HasKey(ms, ns[i].key);
      var k :| 0 <= k < |ms| && ms[k].key == ns[i].key;
      LookupAt(ms, k);
      assert Matched(ms[k], ns, false);
    }
    forall k | 0 <= k < |ms| ensures Named(ms[k].key, names) && ms[k].key in KeySet(ns) {
      assert Matched(ms[k], ns, false);
      var j :| 0 <= j < |ns| && ns[j].key == ms[k].key;
      assert Ascii(names[j]) == ms[k].key;
    }
    KeySetSize(ms);
    KeySetSize(ns);
    assert KeySet(ms) == KeySet(ns) by {
      forall i | 0 <= i < |ns| ensures ns[i].key in KeySet(ms) { assert HasKey(ms, ns[i].key); }
    }
  }

  lemma {:induction false} ObjectFits(v: Json, names: seq<string>, values: seq<Json>)
    requires |names| == |values| && v.Obj? && DistinctKeys(v.members)
    requires ExactKeys(v, names) && AllAt(v, names, values)
    ensures Same(v, Object(names, values), false)
  {
    var ms, ns := v.members, Object(names, values).members;
    forall k | 0 <= k < |ms| ensures Matched(ms[k], ns, false) {
      assert Named(ms[k].key, names);
      var i :| 0 <= i < |names| && Ascii(names[i]) == ms[k].key;
      LookupAt(ms, k);
      assert At(v, names, values, i);
      assert ns[i].key == ms[k].key && Same(ms[k].value, ns[i].value, false);
    }
    forall i | 0 <= i < |ns| ensures HasKey(ms, ns[i].key) { assert HasKey(ms, Ascii(names[i])); }
  }

  lemma {:induction false} TwoMembers(v: Json, names: seq<string>, values: seq<Json>)
    requires |names| == |values| == 2
    ensures AllAt(v, names, values) <==>
      At(v, names, values, 0) && At(v, names, values, 1)
  {
  }

  lemma {:induction false} ThreeMembers(v: Json, names: seq<string>, values: seq<Json>)
    requires |names| == |values| == 3
    ensures AllAt(v, names, values) <==>
      At(v, names, values, 0) && At(v, names, values, 1) && At(v, names, values, 2)
  {
  }

  lemma {:induction false} FourMembers(v: Json, names: seq<string>, values: seq<Json>)
    requires |names| == |values| == 4
    ensures AllAt(v, names, values) <==>
      At(v, names, values, 0) && At(v, names, values, 1) && At(v, names, values, 2)
      && At(v, names, values, 3)
  {
  }

  lemma {:induction false} FiveMembers(v: Json, names: seq<string>, values: seq<Json>)
    requires |names| == |values| == 5
    ensures AllAt(v, names, values) <==>
      At(v, names, values, 0) && At(v, names, values, 1) && At(v, names, values, 2)
      && At(v, names, values, 3) && At(v, names, values, 4)
  {
  }

  lemma {:induction false} SixMembers(v: Json, names: seq<string>, values: seq<Json>)
    requires |names| == |values| == 6
    ensures AllAt(v, names, values) <==>
      At(v, names, values, 0) && At(v, names, values, 1) && At(v, names, values, 2)
      && At(v, names, values, 3) && At(v, names, values, 4) && At(v, names, values, 5)
  {
  }

  lemma {:induction false} SameReflexive(v: Json)
    ensures Same(v, v, false)
    decreases v
  {
    match v
    case Arr(items) => forall i | 0 <= i < |items| ensures Same(items[i], items[i], false) { SameReflexive(items[i]); }
    case Obj(ms) =>
      forall i | 0 <= i < |ms| ensures Matched(ms[i], ms, false) {
        SameReflexive(ms[i].value);
        MatchedWithin(ms, i);
      }
      KeysWithin(ms);
    case _ =>
  }

  lemma {:induction false} MatchedWithin(ms: seq<Member>, i: nat)
    requires i < |ms| && Same(ms[i].value, ms[i].value, false)
    ensures Matched(ms[i], ms, false)
  {
  }

  lemma {:induction false} KeysWithin(ms: seq<Member>)
    ensures forall i :: 0 <= i < |ms| ==> HasKey(ms, ms[i].key)
  {
  }

  // Without an object in it, a value is only the same as itself.
  lemma {:induction false} SameAsToken(x: Json, y: Json)
    requires TokenValue(y) && Same(x, y, false)
    ensures x == y
    decreases y
  {
    if x.Arr? {
      forall i | 0 <= i < |x.items| ensures x.items[i] == y.items[i] { SameAsToken(x.items[i], y.items[i]); }
    }
  }

  /******* Receipts with given fields *******/

  const HEX_DIGITS: Text := Ascii("0123456789abcdef")
  const DIGITS: Text := Ascii("0123456789")

  predicate Written(t: Text, alphabet: Text) { forall i :: 0 <= i < |t| ==> t[i] in alphabet }

  predicate Hash(t: Text, n: nat) { |t| == n && Written(t, HEX_DIGITS) }

  ghost predicate Digest(t: Text) { exists hash :: Hash(hash, 64) && t == Ascii("sha256:") + hash }

  predicate RunNumber(t: Text) { t != [] && t[0] != 0x30 && Written(t, DIGITS) }

  // What String(field || "") makes of the field, which need not be a string.
  function Read(field: Json): Text { ScalarText(field) }

  // === on two fields: an array is only itself, so never the other one.
  predicate Differ(a: Json, b: Json) { a != b || a.Arr? }

  // The fields of a receipt that are not fixed.
  datatype Fields = Fields(
    sha: Json, tree: Json, index: Json, amd64: Json, arm64: Json, assets: seq<Json>,
    workflowSha: Json, runId: Json, runAttempt: Json)
  {
    ghost predicate Valid() {
      && Hash(Read(sha), 40) && !sha.Arr? && Hash(Read(tree), 40) && Hash(Read(workflowSha), 40)
      && Digest(Read(index)) && Digest(Read(amd64)) && Digest(Read(arm64))
      && Differ(index, amd64) && Differ(index, arm64) && Differ(amd64, arm64)
      && |assets| == |PORTABLE_ASSETS| && (forall i :: 0 <= i < |assets| ==> Hash(Read(assets[i]), 64))
      && RunNumber(Read(runId)) && RunNumber(Read(runAttempt))
    }
  }

  function ProductWith(sha: Json, tree: Json): Json {
    Object(PRODUCT_KEYS, [Str(Ascii(PRODUCT_REPOSITORY)), sha, tree])
  }

  function PlatformWith(name: string, digest: Json): Json { Object(PLATFORM_KEYS, [Str(Ascii(name)), digest]) }

  function PlatformsWith(amd64: Json, arm64: Json): Json {
    Arr([PlatformWith("linux/amd64", amd64), PlatformWith("linux/arm64", arm64)])
  }

  function ImageObject(ref: Text, index: Json, sha: Json, platforms: Json): Json {
    Object(CLOUD_IMAGE_KEYS, [Str(Ascii(CLOUD_IMAGE_REPOSITORY)), Str(ref), index, sha, platforms])
  }

  function ImageWith(f: Fields): Json {
    var ref := Ascii(CLOUD_IMAGE_REPOSITORY) + Ascii("@") + JsString(f.index);
    ImageObject(ref, f.index, f.sha, PlatformsWith(f.amd64, f.arm64))
  }

  function AssetWith(name: string, sha256: Json): Json { Object(ASSET_KEYS, [Str(Ascii(name)), sha256]) }

  function AssetsWith(assets: seq<Json>): Json
    requires |assets| == |PORTABLE_ASSETS|
  {
    Arr(seq(|assets|, i requires 0 <= i < |assets| => AssetWith(PORTABLE_ASSETS[i], assets[i])))
  }

  function ProvenanceWith(f: Fields): Json {
    Object(PROVENANCE_KEYS, [Str(Ascii(PRODUCT_REPOSITORY)), f.workflowSha, f.runId, f.runAttempt])
  }

  // The receipt a build writes: schema 2, the image built from the product's own commit.
  function ReceiptWith(f: Fields): Json
    requires |f.assets| == |PORTABLE_ASSETS|
  {
    ReceiptObject(ProductWith(f.sha, f.tree), ImageWith(f), AssetsWith(f.assets), ProvenanceWith(f))
  }

  function ReceiptObject(product: Json, image: Json, assets: Json, provenance: Json): Json {
    Object(RECEIPT_KEYS, [Num([0x32]), Str(Ascii("opl_cloud_candidate")), product, image, assets, provenance])
  }

  // v is, up to member order, a receipt that can be written.
  ghost predicate Writable(v: Json) { exists f: Fields :: WrittenFrom(v, f) }

  ghost predicate WrittenFrom(v: Json, f: Fields) { f.Valid() && Same(v, ReceiptWith(f), false) }

  /******* Texts *******/

  lemma {:induction false} HexIff(t: Text, n: nat)
    ensures HexText(t, n) <==> Hash(t, n)
  {
    forall c: Unit ensures IsLowerHex(c) <==> c in HEX_DIGITS { HexDigit(c); }
  }

  lemma {:induction false} HexDigit(c: Unit)
    ensures IsLowerHex(c) <==> c in HEX_DIGITS
  {
    assert HEX_DIGITS ==
      [0x30, 0x31, 0x32, 0x33, 0x34, 0x35, 0x36, 0x37, 0x38, 0x39, 0x61, 0x62, 0x63, 0x64, 0x65, 0x66];
  }

  lemma {:induction false} DigestIff(t: Text)
    ensures DigestText(t) <==> Digest(t)
  {
    if DigestText(t) {
      HexIff(t[7..], 64);
      assert t == Ascii("sha256:") + t[7..];
    }
    if Digest(t) {
      var hash :| Hash(hash, 64) && t == Ascii("sha256:") + hash;
      HexIff(hash, 64);
      assert |Ascii("sha256:")| == 7 && t[..7] == Ascii("sha256:") && t[7..] == hash;
    }
  }

  lemma {:induction false} RunNumberIff(t: Text)
    ensures PositiveDecimal(t) <==> RunNumber(t)
  {
    forall c: Unit ensures IsDigit(c) <==> c in DIGITS {
      assert DIGITS == [0x30, 0x31, 0x32, 0x33, 0x34, 0x35, 0x36, 0x37, 0x38, 0x39];
    }
  }

  /******* Valid receipts are the writable ones *******/

  lemma {:induction false} ProductIff(p: Json, sha: Json, tree: Json, num: Text -> Json)
    requires Wf(p, num) && TokenValue(sha) && TokenValue(tree)
    ensures Same(p, ProductWith(sha, tree), false) <==>
      ExactKeys(p, PRODUCT_KEYS) && Get(p, "repository") == Str(Ascii(PRODUCT_REPOSITORY))
      && Get(p, "sha") == sha && Get(p, "tree") == tree
  {
    SmallKeys();
    var values := [Str(Ascii(PRODUCT_REPOSITORY)), sha, tree];
    ObjectIff(p, PRODUCT_KEYS, values);
    ThreeMembers(p, PRODUCT_KEYS, values);
    assert PRODUCT_KEYS[0] == "repository" && PRODUCT_KEYS[1] == "sha" && PRODUCT_KEYS[2] == "tree";
    LeafIff(Get(p, "repository"), values[0]);
    SameTokenIff(Get(p, "sha"), sha);
    SameTokenIff(Get(p, "tree"), tree);
  }

  lemma {:induction false} LeafIff(x: Json, y: Json)
    requires y.Str? || y.Num?
    ensures Same(x, y, false) <==> x == y
  {
  }

  lemma {:induction false} SameTokenIff(x: Json, y: Json)
    requires TokenValue(y)
    ensures Same(x, y, false) <==> x == y
  {
    SameReflexive(y);
    if Same(x, y, false) { SameAsToken(x, y); }
  }

  lemma {:induction false} PlatformIff(e: Json, name: string, digest: Json, num: Text -> Json)
    requires Wf(e, num) && TokenValue(digest)
    ensures Same(e, PlatformWith(name, digest), false) <==>
      ExactKeys(e, PLATFORM_KEYS) && Get(e, "platform") == Str(Ascii(name)) && Get(e, "digest") == digest
  {
    SmallKeys();
    ObjectIff(e, PLATFORM_KEYS, [Str(Ascii(name)), digest]);
    TwoMembers(e, PLATFORM_KEYS, [Str(Ascii(name)), digest]);
    assert PLATFORM_KEYS[0] == "platform" && PLATFORM_KEYS[1] == "digest";
    SameTokenIff(Get(e, "digest"), digest);
  }

  lemma {:induction false} AssetIff(a: Json, name: string, sha256: Json, num: Text -> Json)
    requires Wf(a, num) && TokenValue(sha256)
    ensures Same(a, AssetWith(name, sha256), false) <==>
      ExactKeys(a, ASSET_KEYS) && Get(a, "name") == Str(Ascii(name)) && Get(a, "sha256") == sha256
  {
    SmallKeys();
    ObjectIff(a, ASSET_KEYS, [Str(Ascii(name)), sha256]);
    TwoMembers(a, ASSET_KEYS, [Str(Ascii(name)), sha256]);
    assert ASSET_KEYS[0] == "name" && ASSET_KEYS[1] == "sha256";
    SameTokenIff(Get(a, "sha256"), sha256);
  }

  lemma {:induction false} ProvenanceIff(p: Json, f: Fields, num: Text -> Json)
    requires Wf(p, num) && TokenValue(f.workflowSha) && TokenValue(f.runId) && TokenValue(f.runAttempt)
    ensures Same(p, ProvenanceWith(f), false) <==>
      ExactKeys(p, PROVENANCE_KEYS) && Get(p, "workflowRepository") == Str(Ascii(PRODUCT_REPOSITORY))
      && Get(p, "workflowSha") == f.workflowSha && Get(p, "workflowRunId") == f.runId
      && Get(p, "workflowRunAttempt") == f.runAttempt
  {
    ProvenanceKeys();
    var values := [Str(Ascii(PRODUCT_REPOSITORY)), f.workflowSha, f.runId, f.runAttempt];
    ObjectIff(p, PROVENANCE_KEYS, values);
    FourMembers(p, PROVENANCE_KEYS, values);
    ProvenanceMembers(p, values);
    LeafIff(Get(p, "workflowRepository"), values[0]);
    SameTokenIff(Get(p, "workflowSha"), f.workflowSha);
    SameTokenIff(Get(p, "workflowRunId"), f.runId);
    SameTokenIff(Get(p, "workflowRunAttempt"), f.runAttempt);
  }

  lemma {:induction false} ProvenanceMembers(p: Json, values: seq<Json>)
    requires |values| == |PROVENANCE_KEYS| == 4
    ensures At(p, PROVENANCE_KEYS, values, 0) <==> Same(Get(p, "workflowRepository"), values[0], false)
    ensures At(p, PROVENANCE_KEYS, values, 1) <==> Same(Get(p, "workflowSha"), values[1], false)
    ensures At(p, PROVENANCE_KEYS, values, 2) <==> Same(Get(p, "workflowRunId"), values[2], false)
    ensures At(p, PROVENANCE_KEYS, values, 3) <==> Same(Get(p, "workflowRunAttempt"), values[3], false)
  {
    assert PROVENANCE_KEYS[0] == "workflowRepository" && PROVENANCE_KEYS[1] == "workflowSha"
      && PROVENANCE_KEYS[2] == "workflowRunId" && PROVENANCE_KEYS[3] == "workflowRunAttempt";
  }

  lemma {:induction false} ImageIff(c: Json, ref: Text, index: Json, sha: Json, platforms: Json, num: Text -> Json)
    requires Wf(c, num) && TokenValue(index) && TokenValue(sha)
    ensures Same(c, ImageObject(ref, index, sha, platforms), false) <==>
      ExactKeys(c, CLOUD_IMAGE_KEYS) && Get(c, "repository") == Str(Ascii(CLOUD_IMAGE_REPOSITORY))
      && Get(c, "indexRef") == Str(ref) && Get(c, "indexDigest") == index && Get(c, "revision") == sha
      && Same(Get(c, "platforms"), platforms, false)
  {
    ImageKeys();
    var values := [Str(Ascii(CLOUD_IMAGE_REPOSITORY)), Str(ref), index, sha, platforms];
    ObjectIff(c, CLOUD_IMAGE_KEYS, values);
    FiveMembers(c, CLOUD_IMAGE_KEYS, values);
    ImageMembers(c, values);
    LeafIff(Get(c, "repository"), values[0]);
    LeafIff(Get(c, "indexRef"), values[1]);
    SameTokenIff(Get(c, "indexDigest"), index);
    SameTokenIff(Get(c, "revision"), sha);
  }

  lemma {:induction false} ImageMembers(c: Json, values: seq<Json>)
    requires |values| == |CLOUD_IMAGE_KEYS| == 5
    ensures At(c, CLOUD_IMAGE_KEYS, values, 0) <==> Same(Get(c, "repository"), values[0], false)
    ensures At(c, CLOUD_IMAGE_KEYS, values, 1) <==> Same(Get(c, "indexRef"), values[1], false)
    ensures At(c, CLOUD_IMAGE_KEYS, values, 2) <==> Same(Get(c, "indexDigest"), values[2], false)
    ensures At(c, CLOUD_IMAGE_KEYS, values, 3) <==> Same(Get(c, "revision"), values[3], false)
    ensures At(c, CLOUD_IMAGE_KEYS, values, 4) <==> Same(Get(c, "platforms"), values[4], false)
  {
    assert CLOUD_IMAGE_KEYS[0] == "repository" && CLOUD_IMAGE_KEYS[1] == "indexRef"
      && CLOUD_IMAGE_KEYS[2] == "indexDigest" && CLOUD_IMAGE_KEYS[3] == "revision"
      && CLOUD_IMAGE_KEYS[4] == "platforms";
  }

  lemma {:induction false} PlatformsIff(ps: Json, amd64: Json, arm64: Json, num: Text -> Json)
    requires Wf(ps, num) && TokenValue(amd64) && TokenValue(arm64)
    ensures Same(ps, PlatformsWith(amd64, arm64), false) <==>
      && ps.Arr? && |ps.items| == 2
      && Same(ps.items[0], PlatformWith("linux/amd64", amd64), false)
      && Same(ps.items[1], PlatformWith("linux/arm64", arm64), false)
  {
  }

  lemma {:induction false} AssetsIff(v: Json, assets: seq<Json>)
    requires |assets| == |PORTABLE_ASSETS|
    ensures Same(v, AssetsWith(assets), false) <==>
      && v.Arr? && |v.items| == |PORTABLE_ASSETS|
      && forall i :: 0 <= i < |PORTABLE_ASSETS| ==> Same(v.items[i], AssetWith(PORTABLE_ASSETS[i], assets[i]), false)
  {
  }

  lemma {:induction false} ReceiptIff(
    v: Json, product: Json, image: Json, assets: Json, provenance: Json, num: Text -> Json)
    requires Wf(v, num)
    ensures Same(v, ReceiptObject(product, image, assets, provenance), false) <==>
      ExactKeys(v, RECEIPT_KEYS) && Get(v, "schemaVersion") == Num([0x32])
      && Get(v, "kind") == Str(Ascii("opl_cloud_candidate"))
      && Same(Get(v, "product"), product, false) && Same(Get(v, "cloudImage"), image, false)
      && Same(Get(v, "assets"), assets, false) && Same(Get(v, "provenance"), provenance, false)
  {
    ReceiptKeys();
    var values := [Num([0x32]), Str(Ascii("opl_cloud_candidate")), product, image, assets, provenance];
    ObjectIff(v, RECEIPT_KEYS, values);
    SixMembers(v, RECEIPT_KEYS, values);
    ReceiptMembers(v, values);
    LeafIff(Get(v, "schemaVersion"), values[0]);
    LeafIff(Get(v, "kind"), values[1]);
  }

  lemma {:induction false} ReceiptMembers(v: Json, values: seq<Json>)
    requires |values| == |RECEIPT_KEYS| == 6
    ensures At(v, RECEIPT_KEYS, values, 0) <==> Same(Get(v, "schemaVersion"), values[0], false)
    ensures At(v, RECEIPT_KEYS, values, 1) <==> Same(Get(v, "kind"), values[1], false)
    ensures At(v, RECEIPT_KEYS, values, 2) <==> Same(Get(v, "product"), values[2], false)
    ensures At(v, RECEIPT_KEYS, values, 3) <==> Same(Get(v, "cloudImage"), values[3], false)
    ensures At(v, RECEIPT_KEYS, values, 4) <==> Same(Get(v, "assets"), values[4], false)
    ensures At(v, RECEIPT_KEYS, values, 5) <==> Same(Get(v, "provenance"), values[5], false)
  {
    assert RECEIPT_KEYS[0] == "schemaVersion" && RECEIPT_KEYS[1] == "kind" && RECEIPT_KEYS[2] == "product"
      && RECEIPT_KEYS[3] == "cloudImage" && RECEIPT_KEYS[4] == "assets" && RECEIPT_KEYS[5] == "provenance";
  }

  lemma {:induction false} HashToken(field: Json, n: nat)
    requires n > 0 && Hash(Read(field), n)
    ensures TokenValue(field)
  {
    HexIff(Read(field), n);
    HexField(field, n);
  }

  lemma {:induction false} DigestToken(field: Json)
    requires Digest(Read(field))
    ensures TokenValue(field)
  {
    DigestIff(Read(field));
    DigestField(field);
  }

  lemma {:induction false} RunToken(field: Json)
    requires RunNumber(Read(field))
    ensures TokenValue(field)
  {
    RunNumberIff(Read(field));
    DecimalField(field);
  }

  // The fields of a receipt, wherever they are.
  function FieldsOf(v: Json): Fields {
    var p, c, r := Get(v, "product"), Get(v, "cloudImage"), Get(v, "provenance");
    Fields(Get(p, "sha"), Get(p, "tree"), Get(c, "indexDigest"), DigestAt(c, 0), DigestAt(c, 1),
      seq(|PORTABLE_ASSETS|, i requires 0 <= i < |PORTABLE_ASSETS| => HashAt(Get(v, "assets"), i)),
      Get(r, "workflowSha"), Get(r, "workflowRunId"), Get(r, "workflowRunAttempt"))
  }

  function DigestAt(c: Json, i: nat): Json {
    var ps := Get(c, "platforms");
    if ps.Arr? && i < |ps.items| then Get(ps.items[i], "digest") else Null
  }

  function HashAt(assets: Json, i: nat): Json {
    if assets.Arr? && i < |assets.items| then Get(assets.items[i], "sha256") else Null
  }

  // Every part of a receipt under its own names.
  lemma {:induction false} PartsWf(v: Json, num: Text -> Json)
    requires Wf(v, num) && ExactKeys(v, RECEIPT_KEYS)
    ensures Wf(Get(v, "product"), num) && Wf(Get(v, "cloudImage"), num)
    ensures Wf(Get(v, "assets"), num) && Wf(Get(v, "provenance"), num)
  {
    NormalMember(v, RECEIPT_KEYS, "product", num);
    NormalMember(v, RECEIPT_KEYS, "cloudImage", num);
    NormalMember(v, RECEIPT_KEYS, "assets", num);
    NormalMember(v, RECEIPT_KEYS, "provenance", num);
  }

  lemma {:induction false} StrictIff(a: Json, b: Json)
    requires TokenValue(a)
    ensures !StrictEqual(a, b) <==> Differ(a, b)
  {
  }

  lemma {:induction false} ValidProductIff(p: Json, sha: Json, tree: Json, num: Text -> Json)
    requires Wf(p, num)
    ensures ValidProduct(p) && Get(p, "sha") == sha && Get(p, "tree") == tree <==>
      Hash(Read(sha), 40) && Hash(Read(tree), 40) && Same(p, ProductWith(sha, tree), false)
  {
    HexIff(Read(sha), 40);
    HexIff(Read(tree), 40);
    if Hash(Read(sha), 40) && Hash(Read(tree), 40) {
      HashToken(sha, 40);
      HashToken(tree, 40);
      ProductIff(p, sha, tree, num);
    }
  }

  lemma {:induction false} ValidPlatformIff(e: Json, name: string, digest: Json, num: Text -> Json)
    requires Wf(e, num)
    ensures ValidPlatform(e, name) && Get(e, "digest") == digest <==>
      Digest(Read(digest)) && Same(e, PlatformWith(name, digest), false)
  {
    DigestIff(Read(digest));
    if Digest(Read(digest)) {
      DigestToken(digest);
      PlatformIff(e, name, digest, num);
    }
  }

  lemma {:induction false} ValidAssetIff(a: Json, name: string, sha256: Json, num: Text -> Json)
    requires Wf(a, num)
    ensures ValidAsset(a, name) && Get(a, "sha256") == sha256 <==>
      Hash(Read(sha256), 64) && Same(a, AssetWith(name, sha256), false)
  {
    HexIff(Read(sha256), 64);
    if Hash(Read(sha256), 64) {
      HashToken(sha256, 64);
      AssetIff(a, name, sha256, num);
    }
  }

  lemma {:induction false} ValidAssetsIff(v: Json, assets: seq<Json>, num: Text -> Json)
    requires Wf(v, num) && |assets| == |PORTABLE_ASSETS|
    ensures ValidAssets(v) && (forall i :: 0 <= i < |assets| ==> HashAt(v, i) == assets[i]) <==>
      (forall i :: 0 <= i < |assets| ==> Hash(Read(assets[i]), 64)) && Same(v, AssetsWith(assets), false)
  {
    AssetsIff(v, assets);
    if v.Arr? && |v.items| == |PORTABLE_ASSETS| {
      forall i | 0 <= i < |PORTABLE_ASSETS|
        ensures ValidAsset(v.items[i], PORTABLE_ASSETS[i]) && HashAt(v, i) == assets[i] <==>
          Hash(Read(assets[i]), 64) && Same(v.items[i], AssetWith(PORTABLE_ASSETS[i], assets[i]), false)
      {
        ValidAssetIff(v.items[i], PORTABLE_ASSETS[i], assets[i], num);
      }
    }
  }

  predicate RunFields(p: Json, f: Fields) {
    && Get(p, "workflowSha") == f.workflowSha && Get(p, "workflowRunId") == f.runId
    && Get(p, "workflowRunAttempt") == f.runAttempt
  }

  lemma {:induction false} ValidProvenanceIff(p: Json, f: Fields, num: Text -> Json)
    requires Wf(p, num)
    ensures ValidProvenance(p) && RunFields(p, f) <==>
      Hash(Read(f.workflowSha), 40) && RunNumber(Read(f.runId)) && RunNumber(Read(f.runAttempt))
      && Same(p, ProvenanceWith(f), false)
  {
    HexIff(Read(f.workflowSha), 40);
    RunNumberIff(Read(f.runId));
    RunNumberIff(Read(f.runAttempt));
    if Hash(Read(f.workflowSha), 40) && RunNumber(Read(f.runId)) && RunNumber(Read(f.runAttempt)) {
      HashToken(f.workflowSha, 40);
      RunToken(f.runId);
      RunToken(f.runAttempt);
      ProvenanceIff(p, f, num);
    }
  }

  ghost predicate GoodDigests(f: Fields) {
    && Digest(Read(f.index)) && Digest(Read(f.amd64)) && Digest(Read(f.arm64))
    && Differ(f.index, f.amd64) && Differ(f.index, f.arm64) && Differ(f.amd64, f.arm64)
  }

  predicate PlatformFields(ps: Json, f: Fields) {
    && ps.Arr? && |ps.items| == 2
    && Get(ps.items[0], "digest") == f.amd64 && Get(ps.items[1], "digest") == f.arm64
  }

  lemma {:induction false} ValidPlatformsIff(ps: Json, f: Fields, num: Text -> Json)
    requires Wf(ps, num) && Digest(Read(f.index))
    ensures ValidPlatforms(ps, f.index) && PlatformFields(ps, f) <==>
      GoodDigests(f) && Same(ps, PlatformsWith(f.amd64, f.arm64), false)
  {
    DigestToken(f.index);
    if ps.Arr? && |ps.items| == 2 {
      ValidPlatformIff(ps.items[0], "linux/amd64", f.amd64, num);
      ValidPlatformIff(ps.items[1], "linux/arm64", f.arm64, num);
      assert PLATFORMS[0] == "linux/amd64" && PLATFORMS[1] == "linux/arm64" && |PLATFORMS| == 2;
    }
    if Digest(Read(f.amd64)) && Digest(Read(f.arm64)) {
      DigestToken(f.amd64);
      DigestToken(f.arm64);
      PlatformsIff(ps, f.amd64, f.arm64, num);
      StrictIff(f.index, f.amd64);
      StrictIff(f.index, f.arm64);
      StrictIff(f.amd64, f.arm64);
    }
  }

  lemma {:induction false} ValidImageIff(c: Json, f: Fields, num: Text -> Json)
    requires Wf(c, num) && Hash(Read(f.sha), 40)
    ensures ValidImage(c, f.sha) && Get(c, "indexDigest") == f.index && PlatformFields(Get(c, "platforms"), f) <==>
      GoodDigests(f) && !f.sha.Arr? && Same(c, ImageWith(f), false)
  {
    HashToken(f.sha, 40);
    DigestIff(Read(f.index));
    if Digest(Read(f.index)) {
      DigestToken(f.index);
      if ExactKeys(c, CLOUD_IMAGE_KEYS) {
        NormalMember(c, CLOUD_IMAGE_KEYS, "platforms", num);
        ValidPlatformsIff(Get(c, "platforms"), f, num);
      }
      assert Ascii("@") == [0x40];
      var ref := Ascii(CLOUD_IMAGE_REPOSITORY) + Ascii("@") + JsString(f.index);
      ImageIff(c, ref, f.index, f.sha, PlatformsWith(f.amd64, f.arm64), num);
    }
  }

  /**
   The validator accepts exactly the receipts that can be written: for some hashes, three different digests and run
   numbers, in whatever type their String(...) has that shape, v is the receipt a build writes for them, up to member
   order; in particular its image was built from the product's own commit.
   */
  lemma {:induction false} ValidReceiptIff(v: Json, num: Text -> Json)
    requires Wf(v, num)
    ensures ValidReceipt(v) <==> Writable(v)
  {
    if ValidReceipt(v) {
      OwnFields(v);
      ValidIff(v, FieldsOf(v), num);
    }
    if Writable(v) {
      var f: Fields :| WrittenFrom(v, f);
      ValidIff(v, f, num);
    }
  }

  lemma {:induction false} OwnFields(v: Json)
    requires ValidReceipt(v)
    ensures HasFields(v, FieldsOf(v)) && |FieldsOf(v).assets| == |PORTABLE_ASSETS|
  {
    assert |PLATFORMS| == 2;
  }

  predicate HasFields(v: Json, f: Fields) {
    && Get(Get(v, "product"), "sha") == f.sha && Get(Get(v, "product"), "tree") == f.tree
    && Get(Get(v, "cloudImage"), "indexDigest") == f.index
    && PlatformFields(Get(Get(v, "cloudImage"), "platforms"), f)
    && |f.assets| == |PORTABLE_ASSETS|
    && (forall i :: 0 <= i < |f.assets| ==> HashAt(Get(v, "assets"), i) == f.assets[i])
    && RunFields(Get(v, "provenance"), f)
  }

  lemma {:induction false} ValidIff(v: Json, f: Fields, num: Text -> Json)
    requires Wf(v, num) && |f.assets| == |PORTABLE_ASSETS|
    ensures ValidReceipt(v) && HasFields(v, f) <==> WrittenFrom(v, f)
  {
    ReceiptIff(v, ProductWith(f.sha, f.tree), ImageWith(f), AssetsWith(f.assets), ProvenanceWith(f), num);
    if ExactKeys(v, RECEIPT_KEYS) {
      PartsWf(v, num);
      ValidProductIff(Get(v, "product"), f.sha, f.tree, num);
      if Hash(Read(f.sha), 40) { ValidImageIff(Get(v, "cloudImage"), f, num); }
      ValidAssetsIff(Get(v, "assets"), f.assets, num);
      ValidProvenanceIff(Get(v, "provenance"), f, num);
    }
  }

  /******* The receipts of builds *******/

  // What a build knows, all of it texts.
  datatype Build = Build(
    sha: Text, tree: Text, index: Text, amd64: Text, arm64: Text, assets: seq<Text>,
    workflowSha: Text, runId: Text, runAttempt: Text)
  {
    ghost predicate Valid() {
      && Hash(sha, 40) && Hash(tree, 40) && Hash(workflowSha, 40)
      && Digest(index) && Digest(amd64) && Digest(arm64)
      && index != amd64 && index != arm64 && amd64 != arm64
      && |assets| == |PORTABLE_ASSETS| && (forall i :: 0 <= i < |assets| ==> Hash(assets[i], 64))
      && RunNumber(runId) && RunNumber(runAttempt)
    }
  }

  function Strings(texts: seq<Text>): seq<Json> { seq(|texts|, i requires 0 <= i < |texts| => Str(texts[i])) }

  function AsFields(b: Build): Fields {
    Fields(Str(b.sha), Str(b.tree), Str(b.index), Str(b.amd64), Str(b.arm64), Strings(b.assets),
      Str(b.workflowSha), Str(b.runId), Str(b.runAttempt))
  }

  function ReceiptOf(b: Build): Json
    requires |b.assets| == |PORTABLE_ASSETS|
  {
    ReceiptWith(AsFields(b))
  }

  lemma {:induction false} FieldsValidIff(b: Build)
    ensures AsFields(b).Valid() <==> b.Valid()
  {
    forall i | 0 <= i < |b.assets| ensures Read(AsFields(b).assets[i]) == b.assets[i] { }
  }

  predicate StringFields(f: Fields) {
    && f.sha.Str? && f.tree.Str? && f.index.Str? && f.amd64.Str? && f.arm64.Str?
    && (forall i :: 0 <= i < |f.assets| ==> f.assets[i].Str?)
    && f.workflowSha.Str? && f.runId.Str? && f.runAttempt.Str?
  }

  function BuildOf(f: Fields): Build
    requires StringFields(f)
  {
    Build(f.sha.s, f.tree.s, f.index.s, f.amd64.s, f.arm64.s,
      seq(|f.assets|, i requires 0 <= i < |f.assets| => f.assets[i].s),
      f.workflowSha.s, f.runId.s, f.runAttempt.s)
  }

  ghost predicate BuiltFrom(v: Json, b: Build) { b.Valid() && Same(v, ReceiptOf(b), false) }

  /** Among receipts whose fields are strings, the valid ones are exactly those of a build, up to member order. */
  lemma {:induction false} StringReceiptIff(v: Json, num: Text -> Json)
    requires Wf(v, num)
    ensures ValidReceipt(v) && StringFields(FieldsOf(v)) <==> exists b: Build :: BuiltFrom(v, b)
  {
    if ValidReceipt(v) && StringFields(FieldsOf(v)) {
      OwnFields(v);
      ValidIff(v, FieldsOf(v), num);
      WrittenIsBuilt(v, FieldsOf(v));
    }
    if b: Build :| BuiltFrom(v, b) {
      BuiltIsWritten(v, b);
      ValidIff(v, AsFields(b), num);
      FieldsDetermined(v, AsFields(b));
    }
  }

  lemma {:induction false} WrittenIsBuilt(v: Json, f: Fields)
    requires WrittenFrom(v, f) && StringFields(f)
    ensures BuiltFrom(v, BuildOf(f))
  {
    assert Strings(BuildOf(f).assets) == f.assets;
    assert AsFields(BuildOf(f)) == f;
    FieldsValidIff(BuildOf(f));
  }

  lemma {:induction false} BuiltIsWritten(v: Json, b: Build)
    requires BuiltFrom(v, b)
    ensures WrittenFrom(v, AsFields(b)) && StringFields(AsFields(b))
  {
    FieldsValidIff(b);
  }

  lemma {:induction false} FieldsDetermined(v: Json, f: Fields)
    requires HasFields(v, f)
    ensures FieldsOf(v) == f
  {
    assert FieldsOf(v).assets == f.assets;
  }

  lemma {:induction false} PlatformsWf(b: Build, num: Text -> Json)
    ensures Wf(PlatformsWith(Str(b.amd64), Str(b.arm64)), num)
  {
    SmallKeys();
    ObjectFacts(PLATFORM_KEYS, [Str(Ascii("linux/amd64")), Str(b.amd64)], num);
    ObjectFacts(PLATFORM_KEYS, [Str(Ascii("linux/arm64")), Str(b.arm64)], num);
  }

  lemma {:induction false} AssetsWf(assets: seq<Text>, num: Text -> Json)
    requires |assets| == |PORTABLE_ASSETS|
    ensures Wf(AssetsWith(Strings(assets)), num)
  {
    SmallKeys();
    forall i | 0 <= i < |assets| ensures Wf(AssetsWith(Strings(assets)).items[i], num) {
      ObjectFacts(ASSET_KEYS, [Str(Ascii(PORTABLE_ASSETS[i])), Str(assets[i])], num);
    }
  }

  lemma {:induction false} ReceiptWf(b: Build, num: Text -> Json)
    requires |b.assets| == |PORTABLE_ASSETS| && num([0x32]) == Num([0x32])
    ensures Wf(ReceiptOf(b), num) && Get(ReceiptOf(b), "assets") == AssetsWith(Strings(b.assets))
  {
    var f := AsFields(b);
    assert Wf(ProductWith(f.sha, f.tree), num) by {
      SmallKeys();
      ObjectFacts(PRODUCT_KEYS, [Str(Ascii(PRODUCT_REPOSITORY)), f.sha, f.tree], num);
    }
    assert Wf(ImageWith(f), num) by {
      ImageKeys();
      PlatformsWf(b, num);
      var ref := Ascii(CLOUD_IMAGE_REPOSITORY) + Ascii("@") + JsString(f.index);
      ObjectFacts(CLOUD_IMAGE_KEYS,
        [Str(Ascii(CLOUD_IMAGE_REPOSITORY)), Str(ref), f.index, f.sha, PlatformsWith(f.amd64, f.arm64)], num);
    }
    assert Wf(ProvenanceWith(f), num) by {
      ProvenanceKeys();
      ObjectFacts(PROVENANCE_KEYS, [Str(Ascii(PRODUCT_REPOSITORY)), f.workflowSha, f.runId, f.runAttempt], num);
    }
    assert Wf(AssetsWith(f.assets), num) by { AssetsWf(b.assets, num); }
    ReceiptObjectWf(ProductWith(f.sha, f.tree), ImageWith(f), AssetsWith(f.assets), ProvenanceWith(f), num);
  }

  lemma {:induction false} ReceiptObjectWf(
    product: Json, image: Json, assets: Json, provenance: Json, num: Text -> Json)
    requires Wf(product, num) && Wf(image, num) && Wf(assets, num) && Wf(provenance, num)
    requires num([0x32]) == Num([0x32])
    ensures var r := ReceiptObject(product, image, assets, provenance); Wf(r, num) && Get(r, "assets") == assets
  {
    ReceiptKeys();
    var values := [Num([0x32]), Str(Ascii("opl_cloud_candidate")), product, image, assets, provenance];
    ObjectFacts(RECEIPT_KEYS, values, num);
    assert RECEIPT_KEYS[4] == "assets";
  }

  /**
   Every build with well-formed hashes, distinct digests and run numbers has a valid receipt listing its asset
   hashes.
   */
  lemma {:induction false} BuildHasReceipt(b: Build, num: Text -> Json)
    requires b.Valid() && num([0x32]) == Num([0x32])
    ensures ValidReceipt(ReceiptOf(b)) && Wf(ReceiptOf(b), num)
    ensures forall i :: 0 <= i < |b.assets| ==> HashAt(Get(ReceiptOf(b), "assets"), i) == Str(b.assets[i])
  {
    ReceiptWf(b, num);
    SameReflexive(ReceiptOf(b));
    FieldsValidIff(b);
    ValidIff(ReceiptOf(b), AsFields(b), num);
  }
}
