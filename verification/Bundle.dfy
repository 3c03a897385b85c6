/** validateCandidateBundle and decodeCandidateReceipt: which directories and which texts are accepted. */
module Bundle {
  import opened Wrappers
  import opened Json
  import opened JsonRoundTrip
  import opened Base64
  import opened Receipt
  import opened Candidate

  const MANIFEST_NAME := "opl-cloud-candidate.json"
  const CHECKSUM_MANIFEST_NAME := "SHA256SUMS"
  const COVERED: seq<string> := PORTABLE_ASSETS + [MANIFEST_NAME]
  const EXPECTED: seq<string> := COVERED + [CHECKSUM_MANIFEST_NAME]

  // The three host functions that stay uninterpreted.
  datatype Host = Host(num: Text -> Json, utf8: seq<Byte> -> Text, sha256: seq<Byte> -> Text)

  predicate AsciiBytes(b: seq<Byte>) {
    forall i :: 0 <= i < |b| ==> b[i] < 128
  }

  // UTF-8 decoding is the identity on ASCII and never makes ASCII out of anything else.
  ghost predicate Utf8(utf8: seq<Byte> -> Text) {
    forall b :: AsciiBytes(b) || AsciiText(utf8(b)) ==> utf8(b) == b
  }

  ghost predicate GoodHost(h: Host) {
    && NumberReader(h.num)
    && Utf8(h.utf8)
    && (forall b :: HexText(h.sha256(b), 64))
  }

  /******* decodeCandidateReceipt *******/

  function DecodeReceipt(encoded: Text, h: Host): Result<Json, string> {
    if !Gate(encoded) then Err("cloud_candidate_receipt_encoding_invalid")
    else match Parse(h.utf8(Decode(encoded)), h.num)
      case None => Err("cloud_candidate_receipt_encoding_invalid")
      case Some(v) => if ValidReceipt(v) then Ok(v) else Err("cloud_candidate_receipt_invalid")
  }

  /**
   A receipt that can be written survives: canonical JSON, base64 and back gives the same receipt with sorted members.
   */
  lemma {:induction false} DecodeOfEncodedReceipt(v: Json, h: Host)
    requires GoodHost(h) && Wf(v, h.num) && Writable(v)
    ensures AsciiText(Canonical(v))
    ensures DecodeReceipt(Encode(Canonical(v)), h) == Ok(Normal(v)) && Same(v, Normal(v), true)
  {
    ValidReceiptIff(v, h.num);
    ReceiptIsAscii(v, h.num);
    NormalReceipt(v, h.num);
    ParseCanonical(v, h.num);
    DecodeOfCanonicalText(v, Normal(v), h);
    NormalSame(v, h);
  }

  /** What is decoded was gated, parsed and can be written. */
  lemma {:induction false} DecodedIff(encoded: Text, v: Json, h: Host)
    requires GoodHost(h)
    ensures DecodeReceipt(encoded, h) == Ok(v) <==>
      Gate(encoded) && Parse(h.utf8(Decode(encoded)), h.num) == Some(v) && Writable(v)
  {
    if Gate(encoded) && Parse(h.utf8(Decode(encoded)), h.num).Some? {
      var parsed := Parse(h.utf8(Decode(encoded)), h.num).value;
      ParseWf(h.utf8(Decode(encoded)), h.num);
      ValidReceiptIff(parsed, h.num);
    }
  }

  lemma {:induction false} DecodeOfCanonicalText(v: Json, n: Json, h: Host)
    requires GoodHost(h) && Wf(v, h.num) && AsciiText(Canonical(v))
    requires Parse(Canonical(v), h.num) == Some(n) && ValidReceipt(n)
    ensures DecodeReceipt(Encode(Canonical(v)), h) == Ok(n)
  {
    var b: seq<Byte> := Canonical(v);
    CanonicalGate(v, b, h);
    DecodesTo(Encode(b), b, n, h);
  }

  lemma {:induction false} DecodesTo(encoded: Text, b: seq<Byte>, n: Json, h: Host)
    requires GoodHost(h) && Gate(encoded) && Decode(encoded) == b && AsciiBytes(b)
    requires Parse(b, h.num) == Some(n) && ValidReceipt(n)
    ensures DecodeReceipt(encoded, h) == Ok(n)
  {
    assert h.utf8(b) == b;
  }

  lemma {:induction false} CanonicalGate(v: Json, b: seq<Byte>, h: Host)
    requires Wf(v, h.num) && b == Canonical(v) && AsciiText(Canonical(v))
    ensures Gate(Encode(b)) && Decode(Encode(b)) == b && AsciiBytes(b)
  {
    DecodeEncode(b);
    CanonicalHead(v, h.num);
  }

  lemma {:induction false} NormalSame(v: Json, h: Host)
    requires GoodHost(h) && Wf(v, h.num)
    ensures Same(v, Normal(v), true)
  {
    ParseCanonical(v, h.num);
    ParseWf(Canonical(v), h.num);
    CanonicalOfNormal(v, h.num);
    CanonicalEqualIff(v, Normal(v), h.num);
  }

  /******* The bundle directory *******/

  datatype DirEntry = DirEntry(name: string, isFile: bool)
  // What lstat and readFile say about one path; a file may vanish or fail to read.
  datatype Node = Node(isFile: bool, bytes: Option<seq<Byte>>)
  datatype Directory = Directory(entries: seq<DirEntry>, nodes: map<string, Node>)

  function Names(entries: seq<DirEntry>): seq<string> {
    seq(|entries|, i requires 0 <= i < |entries| => entries[i].name)
  }

  predicate Readable(d: Directory, name: string) {
    name in d.nodes && d.nodes[name].isFile && d.nodes[name].bytes.Some?
  }

  function Bytes(d: Directory, name: string): seq<Byte> {
    if Readable(d, name) then d.nodes[name].bytes.value else []
  }

  predicate RightNames(d: Directory) {
    && (forall i :: 0 <= i < |d.entries| ==> d.entries[i].isFile)
    && multiset(Names(d.entries)) == multiset(EXPECTED)
  }

  // The listing of a directory that holds these regular files.
  function AsFiles(names: seq<string>): seq<DirEntry> {
    seq(|names|, i requires 0 <= i < |names| => DirEntry(names[i], true))
  }

  // A regular file that can be read.
  ghost predicate Stored(d: Directory, name: string) {
    name in d.nodes && exists bytes: seq<Byte> :: d.nodes[name] == Node(true, Some(bytes))
  }

  lemma {:induction false} StoredIff(d: Directory, name: string)
    ensures Stored(d, name) <==> Readable(d, name)
  {
    if Readable(d, name) { assert d.nodes[name] == Node(true, Some(d.nodes[name].bytes.value)); }
  }

  lemma {:induction false} FileCount(names: seq<string>, e: DirEntry)
    ensures multiset(AsFiles(names))[e] == if e.isFile then multiset(names)[e.name] else 0
  {
    if names != [] {
      var init, last := names[..|names| - 1], names[|names| - 1];
      FileCount(init, e);
      assert names == init + [last] && AsFiles(names) == AsFiles(init) + [DirEntry(last, true)];
    }
  }

  // The entries are exactly one regular file for each name.
  ghost predicate FilesNamed(files: multiset<DirEntry>, names: multiset<string>) {
    forall e: DirEntry :: files[e] == if e.isFile then names[e.name] else 0
  }

  lemma {:induction false} AsFilesNamed(names: seq<string>)
    ensures FilesNamed(multiset(AsFiles(names)), multiset(names))
  {
    forall e: DirEntry ensures multiset(AsFiles(names))[e] == if e.isFile then multiset(names)[e.name] else 0 {
      FileCount(names, e);
    }
  }

  lemma {:induction false} NamesDecide(
    f: multiset<DirEntry>, n: multiset<string>, g: multiset<DirEntry>, m: multiset<string>)
    requires FilesNamed(f, n) && FilesNamed(g, m)
    ensures n == m <==> f == g
  {
    if f == g {
      forall name: string ensures n[name] == m[name] {
        assert f[DirEntry(name, true)] == g[DirEntry(name, true)];
      }
    }
  }

  /**
   The names and kinds are right exactly when the directory lists the expected regular files, each once, in any
   order.
   */
  lemma {:induction false} RightNamesIff(d: Directory)
    ensures RightNames(d) <==> multiset(d.entries) == multiset(AsFiles(EXPECTED))
  {
    RightListing(d.entries, EXPECTED);
  }

  lemma {:induction false} RightListing(entries: seq<DirEntry>, names: seq<string>)
    ensures multiset(entries) == multiset(AsFiles(names)) <==>
      (forall i :: 0 <= i < |entries| ==> entries[i].isFile) && multiset(Names(entries)) == multiset(names)
  {
    AsFilesNamed(names);
    if forall i :: 0 <= i < |entries| ==> entries[i].isFile {
      assert entries == AsFiles(Names(entries));
      AsFilesNamed(Names(entries));
      NamesDecide(multiset(entries), multiset(Names(entries)), multiset(AsFiles(names)), multiset(names));
    } else {
      var i :| 0 <= i < |entries| && !entries[i].isFile;
      assert entries[i] in multiset(entries);
      FileCount(names, entries[i]);
    }
  }

  /******* SHA256SUMS *******/

  function SumLine(digest: Text, name: string): Text {
    digest + [SPACE, SPACE] + Ascii(name)
  }

  // The one listing: a line "digest  name" for every covered file, in order.
  function Listing(d: Directory, h: Host, i: nat): Text
    requires i <= |COVERED|
    decreases |COVERED| - i
  {
    if i == |COVERED| then []
    else SumLine(h.sha256(Bytes(d, COVERED[i])), COVERED[i]) + [LF] + Listing(d, h, i + 1)
  }

  // text.split("\n")
  function SplitLines(t: Text): (ls: seq<Text>)
    ensures |ls| > 0
  {
    if t == [] then [[]]
    else
      var more := SplitLines(t[1..]);
      if t[0] == LF then [[]] + more else [[t[0]] + more[0]] + more[1..]
  }

  predicate EndsWithLf(t: Text) { t != [] && t[|t| - 1] == LF }

  function JoinLines(ls: seq<Text>): Text {
    if ls == [] then [] else ls[0] + [LF] + JoinLines(ls[1..])
  }

  lemma {:induction false} JoinCons(l: Text, ls: seq<Text>)
    ensures JoinLines([l] + ls) == l + [LF] + JoinLines(ls)
  {
    assert ([l] + ls)[1..] == ls;
  }

  lemma {:induction false} JoinOfSplit(t: Text)
    ensures JoinLines(SplitLines(t)) == t + [LF]
  {
    if t == [] {
      assert JoinLines([[]]) == [LF];
    } else {
      JoinOfSplit(t[1..]);
      var more := SplitLines(t[1..]);
      assert t == [t[0]] + t[1..];
      if t[0] == LF {
        JoinCons([], more);
      } else {
        GrowJoin(t[0], more);
      }
    }
  }

  lemma {:induction false} GrowJoin(c: Unit, lines: seq<Text>)
    requires lines != []
    ensures JoinLines([[c] + lines[0]] + lines[1..]) == [c] + JoinLines(lines)
  {
    JoinCons([c] + lines[0], lines[1..]);
    assert [c] + lines[0] + [LF] + JoinLines(lines[1..]) == [c] + (lines[0] + [LF] + JoinLines(lines[1..]));
  }

  lemma {:induction false} SplitOfLine(l: Text, rest: Text)
    requires LF !in l
    ensures SplitLines(l + [LF] + rest) == [l] + SplitLines(rest)
  {
    var t := l + [LF] + rest;
    if l == [] {
      assert t[1..] == rest;
    } else {
      SplitOfLine(l[1..], rest);
      assert t[1..] == l[1..] + [LF] + rest;
      assert l == [l[0]] + l[1..];
    }
  }

  predicate NameChar(c: Unit) {
    0x30 <= c <= 0x39 || 0x41 <= c <= 0x5A || 0x61 <= c <= 0x7A || c == 0x2E || c == 0x5F || c == 0x2D
  }

  // ^([0-9a-f]{64})  ([A-Za-z0-9][A-Za-z0-9._-]*)$
  predicate LineShape(line: Text) {
    && |line| > 66
    && HexText(line[..64], 64)
    && line[64] == SPACE && line[65] == SPACE
    && (forall i :: 66 <= i < |line| ==> NameChar(line[i]))
    && line[66] != 0x2E && line[66] != 0x5F && line[66] != 0x2D
  }

  predicate GoodChar(c: char) {
    '0' <= c <= '9' || 'A' <= c <= 'Z' || 'a' <= c <= 'z' || c == '.' || c == '_' || c == '-'
  }

  predicate GoodName(name: string) {
    && name != "" && name[0] != '.' && name[0] != '_' && name[0] != '-'
    && forall i :: 0 <= i < |name| ==> GoodChar(name[i])
  }

  lemma {:induction false} AssetNames1()
    ensures GoodName("compose.yaml") && GoodName("compose.deployment-platform-owned.yaml")
  {
  }

  lemma {:induction false} AssetNames2()
    ensures GoodName("compose.deployment-customer-owned.yaml") && GoodName("compose.fabric-local-docker.yaml")
  {
  }

  lemma {:induction false} AssetNames3()
    ensures GoodName("compose.local-workspace.yaml") && GoodName("compose.fabric-tencent-tke.yaml")
  {
  }

  lemma {:induction false} AssetNames4()
    ensures GoodName("opl-cloud-candidate.json") && GoodName("opl-cloud.env.example")
      && GoodName("compose.deployment-managed-tke.yaml")
  {
  }

  // Every covered name has the shape the line pattern asks for.
  lemma {:induction false} CoveredNames(i: nat)
    requires i < |COVERED|
    ensures GoodName(COVERED[i])
  {
    AssetNames1();
    AssetNames2();
    AssetNames3();
    AssetNames4();
    assert i < |PORTABLE_ASSETS| ==> COVERED[i] == PORTABLE_ASSETS[i];
  }

  // The line check of the validator says no more and no less than "digest, two spaces, the covered name".
  lemma {:induction false} LineIff(line: Text, digest: Text, name: string)
    requires HexText(digest, 64) && GoodName(name)
    ensures line == SumLine(digest, name)
       <==> LineShape(line) && line[66..] == Ascii(name) && line[..64] == digest
    ensures LF !in SumLine(digest, name)
  {
    var l := SumLine(digest, name);
    forall i | 66 <= i < |l| ensures NameChar(l[i]) {
      assert GoodChar(name[i - 66]);
      assert l[i] == Ascii(name)[i - 66];
    }
    assert l[..64] == digest && l[66..] == Ascii(name);
    if LineShape(line) && line[66..] == Ascii(name) && line[..64] == digest {
      assert line == line[..64] + [line[64], line[65]] + line[66..];
    }
  }

  lemma {:induction false} ListingLine(d: Directory, h: Host, i: nat)
    requires GoodHost(h) && i < |COVERED|
    ensures LF !in SumLine(h.sha256(Bytes(d, COVERED[i])), COVERED[i])
  {
    CoveredNames(i);
    LineIff([], h.sha256(Bytes(d, COVERED[i])), COVERED[i]);
  }

  lemma {:induction false} DropLast(l: Text, more: Text)
    requires EndsWithLf(more)
    ensures EndsWithLf(l + [LF] + more)
    ensures (l + [LF] + more)[..|l + [LF] + more| - 1] == l + [LF] + more[..|more| - 1]
  {
  }

  ghost predicate FreeOfLf(lines: seq<Text>) { forall k :: 0 <= k < |lines| ==> LF !in lines[k] }

  lemma {:induction false} SplitOfJoin(lines: seq<Text>)
    requires lines != [] && FreeOfLf(lines)
    ensures EndsWithLf(JoinLines(lines))
    ensures SplitLines(JoinLines(lines)[..|JoinLines(lines)| - 1]) == lines
  {
    var l, rest := lines[0], lines[1..];
    assert lines == [l] + rest;
    assert LF !in l;
    JoinCons(l, rest);
    if rest == [] {
      OneLine(l);
    } else {
      SplitOfJoin(rest);
      MoreLines(l, JoinLines(rest));
    }
  }

  lemma {:induction false} OneLine(l: Text)
    requires LF !in l
    ensures var t := l + [LF] + []; EndsWithLf(t) && SplitLines(t[..|t| - 1]) == [l]
  {
    var t := l + [LF] + [];
    assert t[..|t| - 1] == l;
    SplitOfLast(l);
  }

  lemma {:induction false} MoreLines(l: Text, more: Text)
    requires LF !in l && EndsWithLf(more)
    ensures var t := l + [LF] + more; EndsWithLf(t) && SplitLines(t[..|t| - 1]) == [l] + SplitLines(more[..|more| - 1])
  {
    DropLast(l, more);
    SplitOfLine(l, more[..|more| - 1]);
  }

  /** A text is the given lines, each ended by LF, exactly when it ends with LF and splits into them. */
  lemma {:induction false} JoinIff(t: Text, lines: seq<Text>)
    requires lines != [] && FreeOfLf(lines)
    ensures t == JoinLines(lines) <==> EndsWithLf(t) && SplitLines(t[..|t| - 1]) == lines
  {
    if t == JoinLines(lines) {
      SplitOfJoin(lines);
    } else if EndsWithLf(t) {
      JoinOfLines(t);
    }
  }

  function ListedLines(d: Directory, h: Host): seq<Text> {
    seq(|COVERED|, i requires 0 <= i < |COVERED| => SumLine(h.sha256(Bytes(d, COVERED[i])), COVERED[i]))
  }

  lemma {:induction false} ListedFree(d: Directory, h: Host)
    requires GoodHost(h)
    ensures ListedLines(d, h) != [] && FreeOfLf(ListedLines(d, h))
  {
    forall k | 0 <= k < |COVERED| ensures LF !in ListedLines(d, h)[k] { ListingLine(d, h, k); }
  }

  lemma {:induction false} ListingIsJoin(d: Directory, h: Host, i: nat)
    requires i <= |COVERED|
    ensures Listing(d, h, i) == JoinLines(ListedLines(d, h)[i..])
    decreases |COVERED| - i
  {
    var lines := ListedLines(d, h)[i..];
    if i < |COVERED| {
      ListingIsJoin(d, h, i + 1);
      assert lines == [lines[0]] + ListedLines(d, h)[i + 1..];
      JoinCons(lines[0], ListedLines(d, h)[i + 1..]);
    }
  }

  lemma {:induction false} SplitOfLast(l: Text)
    requires LF !in l
    ensures SplitLines(l) == [l]
  {
    if l != [] {
      SplitOfLast(l[1..]);
      assert l == [l[0]] + l[1..];
    }
  }

  /** The checksum text is the listing exactly when its lines are the listing's lines. */
  lemma {:induction false} ListingIff(t: Text, d: Directory, h: Host)
    requires GoodHost(h)
    ensures t == Listing(d, h, 0) <==> EndsWithLf(t) && SplitLines(t[..|t| - 1]) == ListedLines(d, h)
  {
    var lines := ListedLines(d, h);
    ListingIsJoin(d, h, 0);
    assert lines[0..] == lines;
    ListedFree(d, h);
    JoinIff(t, lines);
  }

  lemma {:induction false} JoinOfLines(t: Text)
    requires EndsWithLf(t)
    ensures JoinLines(SplitLines(t[..|t| - 1])) == t
  {
    JoinOfSplit(t[..|t| - 1]);
    assert t == t[..|t| - 1] + [LF];
  }

  /******* validateCandidateBundle *******/

  ghost predicate AssetsMatch(d: Directory, r: Json, h: Host) { AssetsListed(d, Get(r, "assets"), h) }

  // The list names the hash of every portable asset, in order.
  ghost predicate AssetsListed(d: Directory, assets: Json, h: Host) {
    && assets.Arr? && |assets.items| == |PORTABLE_ASSETS|
    && forall i :: 0 <= i < |PORTABLE_ASSETS| ==>
      Get(assets.items[i], "sha256") == Str(h.sha256(Bytes(d, PORTABLE_ASSETS[i])))
  }

  // The directory holds exactly what the release job writes for receipt r.
  ghost predicate BundleOf(d: Directory, r: Json, h: Host) {
    && multiset(d.entries) == multiset(AsFiles(EXPECTED))
    && (forall i :: 0 <= i < |EXPECTED| ==> Stored(d, EXPECTED[i]))
    && Wf(r, h.num) && Writable(r)
    && h.utf8(Bytes(d, MANIFEST_NAME)) == Canonical(r) + [LF]
    && AssetsMatch(d, r, h)
    && h.utf8(Bytes(d, CHECKSUM_MANIFEST_NAME)) == Listing(d, h, 0)
  }

  // A directory is the bundle of some receipt exactly when it is the bundle of the receipt its manifest parses to.
  lemma {:induction false} BundleOfParsed(d: Directory, r: Json, h: Host)
    requires GoodHost(h) && BundleOf(d, r, h)
    ensures Parse(h.utf8(Bytes(d, MANIFEST_NAME)), h.num) == Some(Normal(r))
    ensures BundleOf(d, Normal(r), h)
  {
    ParseCanonical(r, h.num);
    ParseWf(h.utf8(Bytes(d, MANIFEST_NAME)), h.num);
    ValidReceiptIff(r, h.num);
    NormalReceipt(r, h.num);
    ValidReceiptIff(Normal(r), h.num);
    CanonicalOfNormal(r, h.num);
    AssetsOfReceiptWf(r, h.num);
    NormalAssets(Get(r, "assets"), h.num);
  }

  lemma {:induction false} AssetsOfReceiptWf(r: Json, num: Text -> Json)
    requires Wf(r, num) && ValidReceipt(r)
    ensures Wf(Get(r, "assets"), num)
  {
    NormalMember(r, RECEIPT_KEYS, "assets", num);
  }

  lemma {:induction false} AcceptedOnlyParsed(d: Directory, v: Json, h: Host)
    requires GoodHost(h) && Parse(h.utf8(Bytes(d, MANIFEST_NAME)), h.num) == Some(v)
    ensures (exists r :: BundleOf(d, r, h)) <==> BundleOf(d, v, h)
  {
    if r :| BundleOf(d, r, h) {
      BundleOfParsed(d, r, h);
    }
  }

  lemma {:induction false} NothingToAccept(d: Directory, h: Host)
    requires GoodHost(h) && Parse(h.utf8(Bytes(d, MANIFEST_NAME)), h.num) == None
    ensures !exists r :: BundleOf(d, r, h)
  {
    if r :| BundleOf(d, r, h) {
      BundleOfParsed(d, r, h);
      assert false;
    }
  }

  method ReadableNames(d: Directory) returns (ok: bool)
    ensures ok <==> forall i :: 0 <= i < |EXPECTED| ==> Stored(d, EXPECTED[i])
  {
    for k := 0 to |EXPECTED|
      invariant forall i :: 0 <= i < k ==> Stored(d, EXPECTED[i])
    {
      StoredIff(d, EXPECTED[k]);
      if !Readable(d, EXPECTED[k]) { return false; }
    }
    return true;
  }

  // lines.map(...): the digests of the checksum file, when every line names its covered file.
  method ReadChecksums(source: Text) returns (r: Option<seq<Text>>)
    ensures r.Some? ==> EndsWithLf(source) && ChecksumLines(SplitLines(source[..|source| - 1]), r.value)
    ensures r.None? ==> !EndsWithLf(source) || NoDigests(SplitLines(source[..|source| - 1]))
  {
    if !EndsWithLf(source) { return None; }
    var lines := SplitLines(source[..|source| - 1]);
    if |lines| != |COVERED| { return None; }
    var checksums: seq<Text> := [];
    for k := 0 to |COVERED|
      invariant |checksums| == k
      invariant forall i :: 0 <= i < k ==> ChecksumLine(lines[i], checksums[i], COVERED[i])
    {
      if !LineShape(lines[k]) || lines[k][66..] != Ascii(COVERED[k]) {
        assert forall digests :: ChecksumLines(lines, digests) ==> ChecksumLine(lines[k], digests[k], COVERED[k]);
        return None;
      }
      checksums := checksums + [lines[k][..64]];
    }
    return Some(checksums);
  }

  predicate ChecksumLine(line: Text, digest: Text, name: string) {
    LineShape(line) && line[66..] == Ascii(name) && line[..64] == digest
  }

  predicate ChecksumLines(lines: seq<Text>, digests: seq<Text>) {
    && |lines| == |COVERED| == |digests|
    && forall i :: 0 <= i < |COVERED| ==> ChecksumLine(lines[i], digests[i], COVERED[i])
  }

  ghost predicate NoDigests(lines: seq<Text>) {
    forall digests :: !ChecksumLines(lines, digests)
  }

  // The digests of the checksum file against the files: together with the lines, the one listing.
  lemma {:induction false} ChecksumsIff(source: Text, digests: seq<Text>, d: Directory, h: Host)
    requires GoodHost(h) && EndsWithLf(source) && ChecksumLines(SplitLines(source[..|source| - 1]), digests)
    ensures source == Listing(d, h, 0) <==>
      forall i :: 0 <= i < |COVERED| ==> digests[i] == h.sha256(Bytes(d, COVERED[i]))
  {
    var lines := SplitLines(source[..|source| - 1]);
    ListingIff(source, d, h);
    forall i | 0 <= i < |COVERED|
      ensures lines[i] == ListedLines(d, h)[i] <==> digests[i] == h.sha256(Bytes(d, COVERED[i]))
    {
      ChecksumAt(lines[i], digests[i], d, h, i);
    }
    assert lines == ListedLines(d, h) <==> forall k :: 0 <= k < |COVERED| ==> lines[k] == ListedLines(d, h)[k];
  }

  lemma {:induction false} ChecksumAt(line: Text, digest: Text, d: Directory, h: Host, i: nat)
    requires GoodHost(h) && i < |COVERED| && ChecksumLine(line, digest, COVERED[i])
    ensures line == ListedLines(d, h)[i] <==> digest == h.sha256(Bytes(d, COVERED[i]))
  {
    CoveredNames(i);
    LineIff(line, h.sha256(Bytes(d, COVERED[i])), COVERED[i]);
  }

  function Digests(d: Directory, h: Host): seq<Text> {
    seq(|COVERED|, i requires 0 <= i < |COVERED| => h.sha256(Bytes(d, COVERED[i])))
  }

  lemma {:induction false} ListedDigest(d: Directory, h: Host, i: nat)
    requires GoodHost(h) && i < |COVERED|
    ensures ChecksumLine(ListedLines(d, h)[i], Digests(d, h)[i], COVERED[i])
  {
    CoveredNames(i);
    LineIff(ListedLines(d, h)[i], h.sha256(Bytes(d, COVERED[i])), COVERED[i]);
  }

  lemma {:induction false} ListedDigests(d: Directory, h: Host)
    requires GoodHost(h)
    ensures ChecksumLines(ListedLines(d, h), Digests(d, h))
  {
    forall i | 0 <= i < |COVERED| ensures ChecksumLine(ListedLines(d, h)[i], Digests(d, h)[i], COVERED[i]) {
      ListedDigest(d, h, i);
    }
  }

  lemma {:induction false} NoChecksums(source: Text, d: Directory, h: Host)
    requires GoodHost(h)
    requires !EndsWithLf(source) || NoDigests(SplitLines(source[..|source| - 1]))
    ensures source != Listing(d, h, 0)
  {
    ListingIff(source, d, h);
    ListedDigests(d, h);
    assert !NoDigests(ListedLines(d, h));
  }

  // The loop over the portable assets: the receipt's hash and the listed hash are both the file's.
  method AssetsAgree(d: Directory, assets: Json, checksums: seq<Text>, h: Host) returns (ok: bool)
    requires assets.Arr? && |assets.items| == |PORTABLE_ASSETS| && |checksums| == |COVERED|
    ensures ok <==> forall i :: 0 <= i < |PORTABLE_ASSETS| ==> AssetAgrees(d, assets.items[i], checksums[i], i, h)
  {
    for k := 0 to |PORTABLE_ASSETS|
      invariant forall i :: 0 <= i < k ==> AssetAgrees(d, assets.items[i], checksums[i], i, h)
    {
      var digest := h.sha256(Bytes(d, PORTABLE_ASSETS[k]));
      if Get(assets.items[k], "sha256") != Str(digest) || checksums[k] != digest {
        assert !AssetAgrees(d, assets.items[k], checksums[k], k, h);
        return false;
      }
    }
    return true;
  }

  predicate AssetAgrees(d: Directory, asset: Json, checksum: Text, i: nat, h: Host)
    requires i < |PORTABLE_ASSETS|
  {
    Get(asset, "sha256") == Str(h.sha256(Bytes(d, PORTABLE_ASSETS[i])))
      && checksum == h.sha256(Bytes(d, PORTABLE_ASSETS[i]))
  }

  lemma {:induction false} AgreementIff(d: Directory, assets: Json, checksums: seq<Text>, h: Host)
    requires assets.Arr? && |assets.items| == |PORTABLE_ASSETS| && |checksums| == |COVERED|
    ensures (AssetsListed(d, assets, h)
             && forall i :: 0 <= i < |COVERED| ==> checksums[i] == h.sha256(Bytes(d, COVERED[i])))
       <==> (forall i :: 0 <= i < |PORTABLE_ASSETS| ==> AssetAgrees(d, assets.items[i], checksums[i], i, h))
            && checksums[|COVERED| - 1] == h.sha256(Bytes(d, MANIFEST_NAME))
  {
    assert forall i :: 0 <= i < |PORTABLE_ASSETS| ==> COVERED[i] == PORTABLE_ASSETS[i];
    assert COVERED[|COVERED| - 1] == MANIFEST_NAME && |COVERED| == |PORTABLE_ASSETS| + 1;
  }

  // The checksum file against the receipt's assets and the files themselves.
  method FilesAgree(d: Directory, assets: Json, h: Host) returns (ok: bool)
    requires GoodHost(h) && assets.Arr? && |assets.items| == |PORTABLE_ASSETS|
    ensures ok <==> AssetsListed(d, assets, h) && h.utf8(Bytes(d, CHECKSUM_MANIFEST_NAME)) == Listing(d, h, 0)
  {
    var source := h.utf8(Bytes(d, CHECKSUM_MANIFEST_NAME));
    var checksums := ReadChecksums(source);
    if checksums.None? {
      NoChecksums(source, d, h);
      return false;
    }
    ChecksumsIff(source, checksums.value, d, h);
    AgreementIff(d, assets, checksums.value, h);
    ok := AssetsAgree(d, assets, checksums.value, h);
    ok := ok && checksums.value[|COVERED| - 1] == h.sha256(Bytes(d, MANIFEST_NAME));
  }

  /**
   Accepts exactly the directories that are the bundle of some receipt a build can write, and returns that
   receipt.
   */
  method ValidateBundle(d: Directory, h: Host) returns (r: Result<Json, string>)
    requires GoodHost(h)
    ensures r.Ok? <==> exists v :: BundleOf(d, v, h)
    ensures r.Ok? ==> BundleOf(d, r.value, h)
  {
    RightNamesIff(d);
    if !RightNames(d) { return Err("cloud_candidate_bundle_invalid"); }
    var readable := ReadableNames(d);
    if !readable { return Err("cloud_candidate_bundle_invalid"); }
    var manifest := h.utf8(Bytes(d, MANIFEST_NAME));
    var parsed := Parse(manifest, h.num);
    if parsed.None? {
      NothingToAccept(d, h);
      return Err("cloud_candidate_bundle_invalid");
    }
    var receipt := parsed.value;
    ParseWf(manifest, h.num);
    ValidReceiptIff(receipt, h.num);
    AcceptedOnlyParsed(d, receipt, h);
    if !ValidReceipt(receipt) || manifest != Canonical(receipt) + [LF] {
      return Err("cloud_candidate_bundle_invalid");
    }
    var agree := FilesAgree(d, Get(receipt, "assets"), h);
    assert AssetsMatch(d, receipt, h) <==> AssetsListed(d, Get(receipt, "assets"), h);
    if !agree {
      assert !BundleOf(d, receipt, h);
      return Err("cloud_candidate_bundle_invalid");
    }
    assert BundleOf(d, receipt, h);
    return Ok(receipt);
  }

  /** The receipt and the asset bytes determine the manifest and the checksum file byte for byte. */
  lemma {:induction false} BundleFilesAreUnique(d1: Directory, r1: Json, d2: Directory, r2: Json, h: Host)
    requires GoodHost(h) && BundleOf(d1, r1, h) && BundleOf(d2, r2, h)
    requires Same(r1, r2, true)
    requires forall i :: 0 <= i < |PORTABLE_ASSETS| ==> Bytes(d1, PORTABLE_ASSETS[i]) == Bytes(d2, PORTABLE_ASSETS[i])
    ensures Bytes(d1, MANIFEST_NAME) == Bytes(d2, MANIFEST_NAME)
    ensures Bytes(d1, CHECKSUM_MANIFEST_NAME) == Bytes(d2, CHECKSUM_MANIFEST_NAME)
  {
    BundleBytes(d1, r1, h);
    BundleBytes(d2, r2, h);
    assert Canonical(r1) == Canonical(r2) by {
      CanonicalEqualIff(r1, r2, h.num);
    }
    ListingDetermined(d1, d2, h, 0);
  }

  lemma {:induction false} AsciiFile(b: seq<Byte>, t: Text, h: Host)
    requires GoodHost(h) && h.utf8(b) == t && AsciiText(t)
    ensures b == t
  {
  }

  lemma {:induction false} BundleBytes(d: Directory, r: Json, h: Host)
    requires GoodHost(h) && Wf(r, h.num) && Writable(r)
    requires h.utf8(Bytes(d, MANIFEST_NAME)) == Canonical(r) + [LF]
    requires h.utf8(Bytes(d, CHECKSUM_MANIFEST_NAME)) == Listing(d, h, 0)
    ensures Bytes(d, MANIFEST_NAME) == Canonical(r) + [LF]
    ensures Bytes(d, CHECKSUM_MANIFEST_NAME) == Listing(d, h, 0)
  {
    assert AsciiText(Canonical(r)) by {
      ValidReceiptIff(r, h.num);
      ReceiptIsAscii(r, h.num);
    }
    ManifestText(Canonical(r));
    AsciiFile(Bytes(d, MANIFEST_NAME), Canonical(r) + [LF], h);
    ListingAscii(d, h, 0);
    AsciiFile(Bytes(d, CHECKSUM_MANIFEST_NAME), Listing(d, h, 0), h);
  }

  lemma {:induction false} ManifestText(t: Text)
    requires AsciiText(t)
    ensures AsciiText(t + [LF])
  {
  }

  lemma {:induction false} ListingDetermined(d1: Directory, d2: Directory, h: Host, i: nat)
    requires i <= |COVERED|
    requires Bytes(d1, MANIFEST_NAME) == Bytes(d2, MANIFEST_NAME)
    requires forall k :: 0 <= k < |PORTABLE_ASSETS| ==> Bytes(d1, PORTABLE_ASSETS[k]) == Bytes(d2, PORTABLE_ASSETS[k])
    ensures Listing(d1, h, i) == Listing(d2, h, i)
    decreases |COVERED| - i
  {
    if i < |COVERED| {
      assert if i < |PORTABLE_ASSETS| then COVERED[i] == PORTABLE_ASSETS[i] else COVERED[i] == MANIFEST_NAME;
      ListingDetermined(d1, d2, h, i + 1);
    }
  }

  lemma {:induction false} ListingAscii(d: Directory, h: Host, i: nat)
    requires GoodHost(h) && i <= |COVERED|
    ensures AsciiText(Listing(d, h, i))
    decreases |COVERED| - i
  {
    if i < |COVERED| {
      ListingAscii(d, h, i + 1);
      var digest := h.sha256(Bytes(d, COVERED[i]));
      assert HexText(digest, 64);
      assert AsciiText(digest);
      assert AsciiText(SumLine(digest, COVERED[i]));
    }
  }
}
