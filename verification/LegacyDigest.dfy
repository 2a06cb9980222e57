/** The byte stream behind the aggregate digest of version-1 bundles. */
module LegacyDigest {
  import opened Wrappers
  import opened Sequences
  import opened Encoding

  type FileMap = map<string, Bytes>

  // ---- Names in `Array.prototype.sort` order ----

  /** The UTF-16 code units of one character. */
  function UnitsOf(c: char): seq<nat> {
    if c as int < 0x1_0000 then [c as int]
    else [0xD800 + (c as int - 0x1_0000) / 0x400, 0xDC00 + (c as int - 0x1_0000) % 0x400]
  }

  function CodeUnits(s: string): seq<nat> {
    if s == "" then [] else UnitsOf(s[0]) + CodeUnits(s[1..])
  }

  predicate UnitsLess(a: seq<nat>, b: seq<nat>) {
    if b == [] then false
    else if a == [] then true
    else a[0] < b[0] || (a[0] == b[0] && UnitsLess(a[1..], b[1..]))
  }

  /** Strings compare by code unit, so a surrogate pair stands before U+E000. */
  predicate Less(a: string, b: string) {
    UnitsLess(CodeUnits(a), CodeUnits(b))
  }

  lemma UnitsOfApart(c: char, d: char)
    ensures UnitsOf(c)[0] == UnitsOf(d)[0] ==> |UnitsOf(c)| == |UnitsOf(d)|
    ensures UnitsOf(c) == UnitsOf(d) ==> c == d
  {
    var x, y := c as int - 0x1_0000, d as int - 0x1_0000;
    assert x == 0x400 * (x / 0x400) + x % 0x400 && y == 0x400 * (y / 0x400) + y % 0x400;
  }

  lemma {:induction false} CodeUnitsInjective(a: string, b: string)
    requires CodeUnits(a) == CodeUnits(b)
    ensures a == b
  {
    hide UnitsOf;
    if a != "" && b != "" {
      FirstUnits(a);
      FirstUnits(b);
      UnitsOfApart(a[0], b[0]);
      var n := |UnitsOf(a[0])|;
      assert CodeUnits(a)[..n] == UnitsOf(a[0]) && CodeUnits(b)[..n] == UnitsOf(b[0]);
      assert CodeUnits(a)[n..] == CodeUnits(a[1..]) && CodeUnits(b)[n..] == CodeUnits(b[1..]);
      CodeUnitsInjective(a[1..], b[1..]);
      assert a == [a[0]] + a[1..] && b == [b[0]] + b[1..];
    } else {
      if a != "" { FirstUnits(a); }
      if b != "" { FirstUnits(b); }
    }
  }

  lemma FirstUnits(s: string)
    requires s != ""
    ensures |UnitsOf(s[0])| > 0 && |CodeUnits(s)| > 0
    ensures CodeUnits(s)[0] == UnitsOf(s[0])[0]
  {
  }

  lemma {:induction false} UnitsTrichotomy(a: seq<nat>, b: seq<nat>)
    ensures a == b ==> !UnitsLess(a, b)
    ensures a != b ==> (UnitsLess(a, b) <==> !UnitsLess(b, a))
  {
    if a != [] && b != [] && a[0] == b[0] {
      UnitsTrichotomy(a[1..], b[1..]);
      assert a == [a[0]] + a[1..] && b == [b[0]] + b[1..];
    }
  }

  lemma {:induction false} UnitsTransitive(a: seq<nat>, b: seq<nat>, c: seq<nat>)
    requires UnitsLess(a, b) && UnitsLess(b, c)
    ensures UnitsLess(a, c)
  {
    if a != [] && a[0] == b[0] && b[0] == c[0] {
      UnitsTransitive(a[1..], b[1..], c[1..]);
    }
  }

  lemma LessTrichotomy(a: string, b: string)
    ensures a == b ==> !Less(a, b)
    ensures a != b ==> (Less(a, b) <==> !Less(b, a))
  {
    hide UnitsLess, CodeUnits;
    UnitsTrichotomy(CodeUnits(a), CodeUnits(b));
    if CodeUnits(a) == CodeUnits(b) {
      CodeUnitsInjective(a, b);
    }
  }

  lemma LessTransitive(a: string, b: string, c: string)
    requires Less(a, b) && Less(b, c)
    ensures Less(a, c)
  {
    hide UnitsLess, CodeUnits;
    UnitsTransitive(CodeUnits(a), CodeUnits(b), CodeUnits(c));
  }

  ghost predicate IsLeast(names: set<string>, name: string) {
    name in names && forall other :: other in names && other != name ==> Less(name, other)
  }

  lemma LeastExists(names: set<string>) returns (least: string)
    requires names != {}
    ensures IsLeast(names, least)
    decreases names
  {
    var x :| x in names;
    if names == {x} {
      least := x;
    } else {
      var rest := LeastExists(names - {x});
      LessTrichotomy(x, rest);
      if Less(rest, x) {
        least := rest;
      } else {
        least := x;
        forall other | other in names && other != x ensures Less(x, other) {
          if other != rest {
            LessTransitive(x, rest, other);
          }
        }
      }
    }
  }

  lemma LeastIsUnique(names: set<string>, a: string, b: string)
    requires IsLeast(names, a) && IsLeast(names, b)
    ensures a == b
  {
    LessTrichotomy(a, b);
  }

  /** The names in ascending order. */
  ghost predicate Ascending(names: seq<string>) {
    forall i, j :: 0 <= i < j < |names| ==> Less(names[i], names[j])
  }

  method SortNames(names: set<string>) returns (sorted: seq<string>)
    ensures Ascending(sorted)
    ensures Members(sorted) == names
  {
    sorted := [];
    var pending := names;
    while pending != {}
      invariant pending <= names
      invariant Members(sorted) == names - pending
      invariant Ascending(sorted)
      invariant forall n, m :: n in sorted && m in pending ==> Less(n, m)
      decreases pending
    {
      ghost var witness_ := LeastExists(pending);
      var least :| least in pending && forall other :: other in pending && other != least ==> Less(least, other);
      MembersSnoc(sorted, least);
      assert names - (pending - {least}) == (names - pending) + {least};
      sorted := sorted + [least];
      pending := pending - {least};
    }
  }

  // ---- The stream ----

  /** `writeUInt32BE` */
  function U32BE(n: nat): (r: Bytes)
    requires n < U32
    ensures |r| == 4
  {
    [n / 256 / 256 / 256, n / 256 / 256 % 256, n / 256 % 256, n % 256]
  }

  function Value(r: Bytes): nat
    requires |r| == 4
  {
    var a: nat, b: nat, c: nat, d: nat := r[0], r[1], r[2], r[3];
    ((a * 256 + b) * 256 + c) * 256 + d
  }

  lemma U32BEValue(n: nat)
    requires n < U32
    ensures Value(U32BE(n)) == n
  {
  }

  lemma U32BEInjective(a: nat, b: nat)
    requires a < U32 && b < U32 && U32BE(a) == U32BE(b)
    ensures a == b
  {
    hide U32BE, Value;
    U32BEValue(a);
    U32BEValue(b);
  }

  /** Name and contents of one file, both as they enter the hash. */
  datatype Chunk = Chunk(name: Bytes, content: Bytes)
  {
    predicate Fits() {
      |name| < U32 && |content| < U32
    }

    function Framed(): (r: Bytes)
      requires Fits()
      ensures |r| >= 8
    {
      U32BE(|name|) + U32BE(|content|) + name + content
    }
  }

  function Stream(chunks: seq<Chunk>): Bytes
    requires forall c :: c in chunks ==> c.Fits()
  {
    if chunks == [] then [] else Stream(chunks[..|chunks| - 1]) + chunks[|chunks| - 1].Framed()
  }

  lemma {:induction false} StreamCons(c: Chunk, rest: seq<Chunk>)
    requires c.Fits() && forall d :: d in rest ==> d.Fits()
    ensures Stream([c] + rest) == c.Framed() + Stream(rest)
  {
    hide Chunk.Framed;
    if rest == [] {
      assert ([c] + rest)[..0] == [];
    } else {
      var n := |rest| - 1;
      assert ([c] + rest)[..n + 1] == [c] + rest[..n];
      StreamCons(c, rest[..n]);
    }
  }

  lemma FramesParse(a: Chunk, x: Bytes, b: Chunk, y: Bytes)
    requires a.Fits() && b.Fits() && a.Framed() + x == b.Framed() + y
    ensures a == b && x == y
  {
    hide U32BE, Value;
    var s, t := a.Framed() + x, b.Framed() + y;
    assert s[..4] == U32BE(|a.name|) && t[..4] == U32BE(|b.name|);
    assert s[4..8] == U32BE(|a.content|) && t[4..8] == U32BE(|b.content|);
    U32BEInjective(|a.name|, |b.name|);
    U32BEInjective(|a.content|, |b.content|);
    var n, m := 8 + |a.name|, 8 + |a.name| + |a.content|;
    assert s[8..n] == a.name && t[8..n] == b.name;
    assert s[n..m] == a.content && t[n..m] == b.content;
    assert s[m..] == x && t[m..] == y;
  }

  lemma StreamLength(chunks: seq<Chunk>)
    requires forall c :: c in chunks ==> c.Fits()
    ensures chunks == [] <==> Stream(chunks) == []
  {
  }

  /** No two different sequences of files make the same stream: lengths fix every boundary. */
  lemma {:induction false} StreamInjective(a: seq<Chunk>, b: seq<Chunk>)
    requires (forall c :: c in a ==> c.Fits()) && (forall c :: c in b ==> c.Fits())
    requires Stream(a) == Stream(b)
    ensures a == b
    decreases |a|
  {
    if a == [] {
      StreamLength(b);
    } else {
      StreamCons(a[0], a[1..]);
      assert a == [a[0]] + a[1..];
      StreamLength(a);
      StreamCons(b[0], b[1..]);
      assert b == [b[0]] + b[1..];
      FramesParse(a[0], Stream(a[1..]), b[0], Stream(b[1..]));
      StreamInjective(a[1..], b[1..]);
    }
  }

  // ---- The digest of a file map ----

  const UNHASHED: set<string> := {"manifest.json", "export.sig"}

  /** The hashed part of a bundle. */
  function Hashed(files: FileMap): FileMap {
    files - UNHASHED
  }

  predicate Encodable(files: FileMap, utf8: string -> Bytes) {
    forall n :: n in files ==> Chunk(utf8(n), files[n]).Fits()
  }

  function Chunks(files: FileMap, utf8: string -> Bytes, names: seq<string>): seq<Chunk>
    requires forall n :: n in names ==> n in files
  {
    seq(|names|, i requires 0 <= i < |names| => Chunk(utf8(names[i]), files[names[i]]))
  }

  ghost predicate IsDigestStream(files: FileMap, utf8: string -> Bytes, stream: Bytes) {
    exists names: seq<string> :: IsListing(files, names) && Encodable(Hashed(files), utf8)
      && stream == Stream(Chunks(Hashed(files), utf8, names))
  }

  /** The hashed names, each once, in ascending order. */
  ghost predicate IsListing(files: FileMap, names: seq<string>) {
    Ascending(names) && Members(names) == Hashed(files).Keys
  }

  /**
   * Feed the hash file by file in name order. A length that does not fit 32 bits makes
   * the buffer write throw.
   */
  method DigestStreamV1(files: FileMap, utf8: string -> Bytes) returns (r: Option<Bytes>)
    ensures r.Some? <==> Encodable(Hashed(files), utf8)
    ensures r.Some? ==> IsDigestStream(files, utf8, r.value)
  {
    hide Progress, Encodable, IsDigestStream;
    var names := SortNames(files.Keys);
    var stream: Bytes := [];
    NothingHashed(files, utf8);
    assert names[..0] == [];
    for i := 0 to |names|
      invariant Progress(files, utf8, names[..i], stream)
    {
      var name := names[i];
      assert names[..i + 1] == names[..i] + [name];
      assert name in Members(names);
      if name == "manifest.json" || name == "export.sig" {
        SkipStep(files, utf8, names[..i], stream, name);
        continue;
      }
      var chunk := Chunk(utf8(name), files[name]);
      if !chunk.Fits() {
        TooLong(files, utf8, name);
        return None;
      }
      HashStep(files, utf8, names[..i], stream, name);
      stream := stream + chunk.Framed();
    }
    assert names[..|names|] == names;
    AllHashed(files, utf8, names, stream);
    r := Some(stream);
  }

  /** The stream holds the hashed ones among the names seen so far. */
  ghost predicate Progress(files: FileMap, utf8: string -> Bytes, seen: seq<string>, stream: Bytes) {
    var used := Filter(seen, IsHashed());
    && (forall n :: n in used ==> n in Hashed(files))
    && (forall c :: c in Chunks(Hashed(files), utf8, used) ==> c.Fits())
    && stream == Stream(Chunks(Hashed(files), utf8, used))
  }

  lemma NothingHashed(files: FileMap, utf8: string -> Bytes)
    ensures Progress(files, utf8, [], [])
  {
  }

  lemma SkipStep(files: FileMap, utf8: string -> Bytes, seen: seq<string>, stream: Bytes, name: string)
    requires Progress(files, utf8, seen, stream) && name in UNHASHED
    ensures Progress(files, utf8, seen + [name], stream)
  {
    FilterSnoc(seen, name, IsHashed());
  }

  lemma HashStep(files: FileMap, utf8: string -> Bytes, seen: seq<string>, stream: Bytes, name: string)
    requires Progress(files, utf8, seen, stream) && name in files && name !in UNHASHED
    requires Chunk(utf8(name), files[name]).Fits()
    ensures Progress(files, utf8, seen + [name], stream + Chunk(utf8(name), files[name]).Framed())
  {
    hide Stream, Filter;
    FilterSnoc(seen, name, IsHashed());
    var used := Filter(seen, IsHashed());
    var chunk := Chunk(utf8(name), files[name]);
    assert Chunks(Hashed(files), utf8, used + [name]) == Chunks(Hashed(files), utf8, used) + [chunk];
    AppendFrame(Chunks(Hashed(files), utf8, used), chunk);
  }

  lemma AllHashed(files: FileMap, utf8: string -> Bytes, names: seq<string>, stream: Bytes)
    requires Progress(files, utf8, names, stream)
    requires Ascending(names) && Members(names) == files.Keys
    ensures Encodable(Hashed(files), utf8) && IsDigestStream(files, utf8, stream)
  {
    hide Stream, Filter, Chunks;
    HashedListing(files, names);
    AllFit(files, utf8, Filter(names, IsHashed()));
  }

  function IsHashed(): string -> bool {
    (n: string) => n !in UNHASHED
  }

  lemma TooLong(files: FileMap, utf8: string -> Bytes, name: string)
    requires name in files && name !in UNHASHED && !Chunk(utf8(name), files[name]).Fits()
    ensures !Encodable(Hashed(files), utf8)
  {
    assert name in Hashed(files);
  }

  lemma AllFit(files: FileMap, utf8: string -> Bytes, names: seq<string>)
    requires IsListing(files, names)
    requires forall n :: n in names ==> n in Hashed(files)
    requires forall c :: c in Chunks(Hashed(files), utf8, names) ==> c.Fits()
    ensures Encodable(Hashed(files), utf8)
  {
    forall n | n in Hashed(files) ensures Chunk(utf8(n), Hashed(files)[n]).Fits() {
      assert n in Members(names);
      var i :| 0 <= i < |names| && names[i] == n;
      assert Chunks(Hashed(files), utf8, names)[i] == Chunk(utf8(n), Hashed(files)[n]);
    }
  }

  lemma HashedListing(files: FileMap, names: seq<string>)
    requires Ascending(names) && Members(names) == files.Keys
    ensures IsListing(files, Filter(names, IsHashed()))
  {
    FilterAscending(names, IsHashed());
    forall n ensures n in Members(Filter(names, IsHashed())) <==> n in Hashed(files).Keys {
      assert n in names <==> n in Members(names);
    }
  }

  lemma FrontAscends(front: seq<string>, last: string)
    requires Ascending(front + [last])
    ensures Ascending(front)
    ensures forall x :: x in front ==> Less(x, last)
  {
    hide Less;
    var all := front + [last];
    assert forall i :: 0 <= i < |front| ==> all[i] == front[i];
    forall x | x in front ensures Less(x, last) {
      var i :| 0 <= i < |front| && front[i] == x;
      assert Less(all[i], all[|front|]);
    }
    forall i, j | 0 <= i < j < |front| ensures Less(front[i], front[j]) {
      assert Less(all[i], all[j]);
    }
  }

  lemma AppendAscends(names: seq<string>, name: string)
    requires Ascending(names) && forall x :: x in names ==> Less(x, name)
    ensures Ascending(names + [name])
  {
    hide Less;
  }

  lemma {:induction false} FilterAscending(names: seq<string>, keep: string -> bool)
    requires Ascending(names)
    ensures Ascending(Filter(names, keep))
  {
    hide Less;
    if names != [] {
      hide Ascending;
      var n := |names| - 1;
      assert names == names[..n] + [names[n]];
      FrontAscends(names[..n], names[n]);
      FilterAscending(names[..n], keep);
      if keep(names[n]) {
        AppendAscends(Filter(names[..n], keep), names[n]);
      }
    }
  }

  lemma AppendFrame(chunks: seq<Chunk>, c: Chunk)
    requires c.Fits() && forall d :: d in chunks ==> d.Fits()
    ensures Stream(chunks + [c]) == Stream(chunks) + c.Framed()
  {
    assert (chunks + [c])[..|chunks|] == chunks;
  }

  lemma NoMembers(a: seq<string>)
    ensures Members(a) == {} <==> a == []
  {
    if a != [] {
      assert a[0] in Members(a);
    }
  }

  lemma {:induction false} AscendingListIsUnique(a: seq<string>, b: seq<string>)
    requires Ascending(a) && Ascending(b)
    requires Members(a) == Members(b)
    ensures a == b
    decreases |a|
  {
    if a == [] {
      NoMembers(b);
    } else {
      NoMembers(a);
      HeadIsLeast(a);
      HeadIsLeast(b);
      LeastIsUnique(Members(a), a[0], b[0]);
      TailMembers(a);
      TailMembers(b);
      AscendingListIsUnique(a[1..], b[1..]);
      assert a == [a[0]] + a[1..] && b == [b[0]] + b[1..];
    }
  }

  lemma HeadIsLeast(a: seq<string>)
    requires Ascending(a) && a != []
    ensures IsLeast(Members(a), a[0])
  {
  }

  lemma TailMembers(a: seq<string>)
    requires Ascending(a) && a != []
    ensures Members(a[1..]) == Members(a) - {a[0]}
    ensures Ascending(a[1..])
  {
    forall n ensures n in a[1..] <==> n in a && n != a[0] {
      LessTrichotomy(a[0], a[0]);
      if n in a && n != a[0] {
        var i :| 0 <= i < |a| && a[i] == n;
        assert a[1..][i - 1] == n;
      }
    }
  }

  /** The stream depends on nothing but the file map. */
  lemma DigestStreamIsDetermined(files: FileMap, utf8: string -> Bytes, s: Bytes, t: Bytes)
    requires IsDigestStream(files, utf8, s) && IsDigestStream(files, utf8, t)
    ensures s == t
  {
    hide IsDigestStream, Stream, Ascending;
    var a := DigestListing(files, utf8, s);
    var b := DigestListing(files, utf8, t);
    AscendingListIsUnique(a, b);
  }

  lemma DigestListing(files: FileMap, utf8: string -> Bytes, s: Bytes) returns (names: seq<string>)
    requires IsDigestStream(files, utf8, s)
    ensures IsListing(files, names) && Encodable(Hashed(files), utf8)
    ensures forall n :: n in names ==> n in Hashed(files)
    ensures forall c :: c in Chunks(Hashed(files), utf8, names) ==> c.Fits()
    ensures s == Stream(Chunks(Hashed(files), utf8, names))
  {
    hide Stream, Ascending;
    names :| IsListing(files, names) && Encodable(Hashed(files), utf8)
             && s == Stream(Chunks(Hashed(files), utf8, names));
    assert forall n :: n in names <==> n in Members(names);
  }

  /** Equal streams come from equal file maps, outside the manifest and the detached signature. */
  lemma DigestStreamIsInjective(f: FileMap, g: FileMap, utf8: string -> Bytes, s: Bytes)
    requires forall a, b :: utf8(a) == utf8(b) ==> a == b
    requires IsDigestStream(f, utf8, s) && IsDigestStream(g, utf8, s)
    ensures Hashed(f) == Hashed(g)
    ensures forall n :: n != "manifest.json" && n != "export.sig" ==>
              (n in f <==> n in g) && (n in f ==> f[n] == g[n])
  {
    hide IsDigestStream, Stream, Ascending;
    var a := DigestListing(f, utf8, s);
    var b := DigestListing(g, utf8, s);
    StreamInjective(Chunks(Hashed(f), utf8, a), Chunks(Hashed(g), utf8, b));
    ChunksDetermineFiles(Hashed(f), Hashed(g), utf8, a, b);
    forall n | n != "manifest.json" && n != "export.sig"
      ensures (n in f <==> n in g) && (n in f ==> f[n] == g[n])
    {
      assert n in f <==> n in Hashed(f);
      assert n in g <==> n in Hashed(g);
    }
  }

  /** The two other files do not enter the stream at all. */
  lemma DigestIgnoresManifestAndSignature(f: FileMap, g: FileMap, utf8: string -> Bytes, s: Bytes)
    requires forall n :: n != "manifest.json" && n != "export.sig" ==> (n in f <==> n in g) && (n in f ==> f[n] == g[n])
    ensures IsDigestStream(f, utf8, s) <==> IsDigestStream(g, utf8, s)
  {
    assert Hashed(f) == Hashed(g) by {
      assert forall n :: n in Hashed(f) <==> n in Hashed(g);
    }
    hide Stream, Ascending, Hashed, Encodable;
  }

  /**
   * The layout, on the smallest example: four bytes of name length and four of content
   * length, most significant first, then the name, then the contents.
   */
  lemma FrameLayout(utf8: string -> Bytes, content: Byte)
    requires utf8("a") == [97]
    ensures IsDigestStream(map["a" := [content]], utf8, [0, 0, 0, 1, 0, 0, 0, 1, 97, content])
    ensures U32BE(0x0102_0304) == [1, 2, 3, 4]
  {
    var files: FileMap := map["a" := [content]];
    var names := ["a"];
    var chunk := Chunk([97], [content]);
    assert "a"[0] != "manifest.json"[0] && "a"[0] != "export.sig"[0];
    assert Hashed(files) == files;
    assert Members(names) == {"a"};
    assert Chunks(files, utf8, names) == [chunk];
    assert [chunk][..0] == [];
    assert U32BE(1) == [0, 0, 0, 1];
    assert Stream([chunk]) == [] + chunk.Framed();
    assert IsListing(files, names);
  }

  /** The order of names: a proper prefix comes first. */
  lemma PrefixesComeFirst(a: string, b: string)
    ensures Less(a, a + b) <==> b != ""
  {
    UnitsOfPrefix(a, b);
    CommonUnits(CodeUnits(a), [], CodeUnits(b));
    assert CodeUnits(a) + [] == CodeUnits(a);
    if b != "" {
      FirstUnits(b);
    }
  }

  lemma UnitsOfBasic(c: char, s: string)
    requires c as int < 0x1_0000
    ensures CodeUnits([c] + s) == [c as nat] + CodeUnits(s)
  {
    assert ([c] + s)[1..] == s;
  }

  /** Otherwise the first difference decides, whatever comes behind it. */
  lemma FirstDifferenceDecides(a: string, c: char, d: char, x: string, y: string)
    requires c as int < d as int < 0x1_0000
    ensures Less(a + ([c] + x), a + ([d] + y))
  {
    UnitsOfPrefix(a, [c] + x);
    UnitsOfPrefix(a, [d] + y);
    UnitsOfBasic(c, x);
    UnitsOfBasic(d, y);
    CommonUnits(CodeUnits(a), [c as nat] + CodeUnits(x), [d as nat] + CodeUnits(y));
  }

  /** And characters outside the basic plane come before U+E000, as their surrogates do. */
  lemma SurrogatesComeBeforePrivateUse()
    ensures Less([0x1_0000 as char], [0xE000 as char])
  {
  }

  lemma {:induction false} UnitsOfPrefix(a: string, b: string)
    ensures CodeUnits(a + b) == CodeUnits(a) + CodeUnits(b)
  {
    hide UnitsOf;
    if a == "" {
      assert a + b == b;
    } else {
      assert (a + b)[1..] == a[1..] + b;
      UnitsOfPrefix(a[1..], b);
    }
  }

  lemma {:induction false} CommonUnits(p: seq<nat>, a: seq<nat>, b: seq<nat>)
    ensures UnitsLess(p + a, p + b) <==> UnitsLess(a, b)
  {
    if p == [] {
      assert p + a == a && p + b == b;
    } else {
      assert (p + a)[1..] == p[1..] + a && (p + b)[1..] == p[1..] + b;
      CommonUnits(p[1..], a, b);
    }
  }

  lemma ChunksDetermineFiles(f: FileMap, g: FileMap, utf8: string -> Bytes, a: seq<string>, b: seq<string>)
    requires forall x, y :: utf8(x) == utf8(y) ==> x == y
    requires Members(a) == f.Keys && Members(b) == g.Keys
    requires (forall n :: n in a ==> n in f) && (forall n :: n in b ==> n in g)
    requires Chunks(f, utf8, a) == Chunks(g, utf8, b)
    ensures f == g
  {
    var ca, cb := Chunks(f, utf8, a), Chunks(g, utf8, b);
    assert |a| == |ca| == |cb| == |b|;
    forall i | 0 <= i < |a| ensures a[i] == b[i] && f[a[i]] == g[b[i]] {
      assert ca[i] == cb[i];
    }
    assert a == b;
    forall n | n in f ensures f[n] == g[n] {
      assert n in Members(a);
      var i :| 0 <= i < |a| && a[i] == n;
    }
  }
}
