/** The writing side of a release: the directory holding a receipt, its assets and its checksums is accepted. */
module Release {
  import opened Wrappers
  import opened Json
  import opened JsonRoundTrip
  import opened Base64
  import opened Receipt
  import opened Candidate
  import opened Bundle

  /******* The directory *******/

  function IndexOf(names: seq<string>, n: string): (i: nat)
    requires n in names
    ensures i < |names| && names[i] == n
    ensures forall j :: 0 <= j < i ==> names[j] != n
  {
    if names[0] == n then 0 else 1 + IndexOf(names[1..], n)
  }

  function DirectoryOf(names: seq<string>, files: seq<seq<Byte>>): Directory
    requires |files| == |names|
  {
    Directory(seq(|names|, i requires 0 <= i < |names| => DirEntry(names[i], true)),
              map n | n in names :: Node(true, Some(files[IndexOf(names, n)])))
  }

  ghost predicate Unique(names: seq<string>) { forall i, j :: 0 <= i < j < |names| ==> names[i] != names[j] }

  lemma {:induction false} FilesOf(names: seq<string>, files: seq<seq<Byte>>, i: nat)
    requires |files| == |names| && Unique(names) && i < |names|
    ensures Readable(DirectoryOf(names, files), names[i]) && Bytes(DirectoryOf(names, files), names[i]) == files[i]
  {
    var k := IndexOf(names, names[i]);
    assert k == i;
  }

  lemma {:induction false} NamesUnique()
    ensures Unique(EXPECTED)
  {
    assert EXPECTED[1][19] != EXPECTED[3][19];
  }

  // The UTF-8 bytes of an ASCII text.
  function AsciiBytesOf(t: Text): seq<Byte> { seq(|t|, i requires 0 <= i < |t| => t[i] % 256) }

  lemma {:induction false} AsciiBytesRead(t: Text, h: Host)
    requires GoodHost(h) && AsciiText(t)
    ensures h.utf8(AsciiBytesOf(t)) == t
  {
    assert AsciiBytesOf(t) == t;
    assert AsciiBytes(AsciiBytesOf(t));
  }

  // Assets, then the text writeCandidateReceipt writes, then SHA256SUMS over both.
  function Covering(r: Json, assets: seq<seq<Byte>>, sums: Text): Directory
    requires |assets| == |PORTABLE_ASSETS|
  {
    DirectoryOf(EXPECTED, assets + [AsciiBytesOf(Canonical(r) + [LF]), AsciiBytesOf(sums)])
  }

  function Released(r: Json, assets: seq<seq<Byte>>, h: Host): Directory
    requires |assets| == |PORTABLE_ASSETS|
  {
    Covering(r, assets, Listing(Covering(r, assets, []), h, 0))
  }

  lemma {:induction false} CoveringFiles(r: Json, assets: seq<seq<Byte>>, sums: Text)
    requires |assets| == |PORTABLE_ASSETS|
    ensures var d := Covering(r, assets, sums);
      && (forall i :: 0 <= i < |EXPECTED| ==> Readable(d, EXPECTED[i]))
      && (forall i :: 0 <= i < |PORTABLE_ASSETS| ==> Bytes(d, PORTABLE_ASSETS[i]) == assets[i])
      && Bytes(d, MANIFEST_NAME) == AsciiBytesOf(Canonical(r) + [LF])
      && Bytes(d, CHECKSUM_MANIFEST_NAME) == AsciiBytesOf(sums)
  {
    var files := assets + [AsciiBytesOf(Canonical(r) + [LF]), AsciiBytesOf(sums)];
    NamesUnique();
    forall i | 0 <= i < |EXPECTED|
      ensures Readable(Covering(r, assets, sums), EXPECTED[i])
        && Bytes(Covering(r, assets, sums), EXPECTED[i]) == files[i]
    {
      FilesOf(EXPECTED, files, i);
    }
    forall i | 0 <= i < |PORTABLE_ASSETS| ensures Bytes(Covering(r, assets, sums), PORTABLE_ASSETS[i]) == assets[i] {
      assert EXPECTED[i] == PORTABLE_ASSETS[i] && files[i] == assets[i];
    }
    assert EXPECTED[|PORTABLE_ASSETS|] == MANIFEST_NAME && EXPECTED[|PORTABLE_ASSETS| + 1] == CHECKSUM_MANIFEST_NAME;
  }

  lemma {:induction false} CoveringNames(r: Json, assets: seq<seq<Byte>>, sums: Text)
    requires |assets| == |PORTABLE_ASSETS|
    ensures RightNames(Covering(r, assets, sums))
  {
    assert Names(Covering(r, assets, sums).entries) == EXPECTED;
  }

  /**
   What a release writes for a receipt of a build over the assets it lists is a bundle of that receipt, so it is
   accepted.
   */
  lemma {:induction false} ReleaseIsAccepted(r: Json, assets: seq<seq<Byte>>, h: Host)
    requires GoodHost(h) && Wf(r, h.num) && Writable(r) && |assets| == |PORTABLE_ASSETS|
    requires forall i :: 0 <= i < |PORTABLE_ASSETS| ==>
      HashAt(Get(r, "assets"), i) == Str(h.sha256(assets[i]))
    ensures BundleOf(Released(r, assets, h), r, h)
  {
    ValidReceiptIff(r, h.num);
    var before := Covering(r, assets, []);
    var sums := Listing(before, h, 0);
    CoveringFiles(r, assets, []);
    CoveringFiles(r, assets, sums);
    CoveringNames(r, assets, sums);
    assert AsciiText(Canonical(r) + [LF]) by {
      ValidReceiptIff(r, h.num);
      ReceiptIsAscii(r, h.num);
      ManifestText(Canonical(r));
    }
    AsciiBytesRead(Canonical(r) + [LF], h);
    ListingAscii(before, h, 0);
    AsciiBytesRead(sums, h);
    ListingDetermined(before, Covering(r, assets, sums), h, 0);
    RightNamesIff(Covering(r, assets, sums));
    forall i | 0 <= i < |EXPECTED| ensures Stored(Covering(r, assets, sums), EXPECTED[i]) {
      StoredIff(Covering(r, assets, sums), EXPECTED[i]);
    }
  }

  /** So every build can be released: its own receipt over its own assets is accepted. */
  lemma {:induction false} BuildIsReleasable(b: Build, assets: seq<seq<Byte>>, h: Host)
    requires GoodHost(h) && h.num([0x32]) == Num([0x32]) && b.Valid() && |assets| == |PORTABLE_ASSETS|
    requires forall i :: 0 <= i < |PORTABLE_ASSETS| ==> b.assets[i] == h.sha256(assets[i])
    ensures BundleOf(Released(ReceiptOf(b), assets, h), ReceiptOf(b), h)
  {
    BuildHasReceipt(b, h.num);
    ValidReceiptIff(ReceiptOf(b), h.num);
    ReleaseIsAccepted(ReceiptOf(b), assets, h);
  }

  /******* Hosts like this exist *******/

  const REPLACEMENT: Text := [0xFFFD]

  function Units(b: seq<Byte>): Text { b }

  function SampleUtf8(b: seq<Byte>): Text { if AsciiBytes(b) then Units(b) else REPLACEMENT }

  function SampleSha(b: seq<Byte>): Text { seq(64, i requires 0 <= i < 64 => 0x30) }

  const OVERFLOW: Text := Ascii("1e999")

  // Every token reads as itself but one, which overflows.
  function SampleNumber(t: Text): Json { if t == OVERFLOW then Infinite(false) else Num(t) }

  const SAMPLE_HOST := Host(SampleNumber, SampleUtf8, SampleSha)

  /** The facts asked of a host are consistent, also for one that overflows. */
  lemma {:induction false} SampleHostIsGood()
    ensures GoodHost(SAMPLE_HOST)
  {
    forall b: seq<Byte> ensures AsciiBytes(b) || AsciiText(SampleUtf8(b)) ==> SampleUtf8(b) == b {
      if !AsciiBytes(b) {
        assert SampleUtf8(b)[0] == 0xFFFD;
      }
    }
  }

  /** On such a host "1e999" and "null" parse to different values that are written as one canonical text. */
  lemma {:induction false} OverflowIsParsed()
    ensures GoodHost(SAMPLE_HOST)
    ensures Parse(Ascii("1e999"), SAMPLE_HOST.num) == Some(Infinite(false))
      && Parse(Ascii("null"), SAMPLE_HOST.num) == Some(Null)
    ensures Canonical(Infinite(false)) == Canonical(Null)
  {
    SampleHostIsGood();
    OverflowParsed(Ascii("1e999"));
    NullParsed(Ascii("null"), SampleNumber);
  }

  lemma {:induction false} OverflowParsed(t: Text)
    requires t == Ascii("1e999")
    ensures Parse(t, SampleNumber) == Some(Infinite(false))
  {
    assert t == [0x31, 0x65, 0x39, 0x39, 0x39];
    OverflowToken(t);
    NumberParsed(t, SampleNumber);
  }

  lemma {:induction false} NullParsed(t: Text, num: Text -> Json)
    requires t == Ascii("null")
    ensures Parse(t, num) == Some(Null)
  {
    assert t == NULL_TEXT;
    assert t[4..] == [];
  }

  lemma {:induction false} NumberParsed(t: Text, num: Text -> Json)
    requires IsNumberToken(t) && t != [] && IsDigit(t[0])
    ensures Parse(t, num) == Some(num(t))
  {
    NumberRunOf(t, []);
    assert t + [] == t && t[..|t|] == t && t[|t|..] == [];
  }

  lemma {:induction false} OverflowToken(t: Text)
    requires t == [0x31, 0x65, 0x39, 0x39, 0x39]
    ensures IsNumberToken(t)
  {
    assert t[1..] == [0x65, 0x39, 0x39, 0x39];
    assert DigitRun(t[1..]) == 0;
    assert DigitRun(t) == 1;
    assert t[1..][1..] == [0x39, 0x39, 0x39];
    WholeRun([0x39, 0x39, 0x39]);
  }

  lemma {:induction false} WholeRun(d: Text)
    requires forall i :: 0 <= i < |d| ==> IsDigit(d[i])
    ensures DigitRun(d) == |d|
  {
    if d != [] { WholeRun(d[1..]); }
  }
}
