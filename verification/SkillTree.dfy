/** Trees of files as the skill synchroniser sees them: paths, line endings, temporary names. */
module SkillTree {
  import opened StringOrder

  // ----- Paths -----

  type Path = seq<string>

  predicate ValidComponent(name: string) { name != "" && '/' !in name }

  predicate ValidPath(p: Path) { p != [] && forall i :: 0 <= i < |p| ==> ValidComponent(p[i]) }

  function Posix(p: Path): string {
    if p == [] then "" else if |p| == 1 then p[0] else p[0] + "/" + Posix(p[1..])
  }

  function FirstSlash(s: string): (k: nat)
    ensures k <= |s|
  {
    if s == "" || s[0] == '/' then 0 else 1 + FirstSlash(s[1..])
  }

  lemma {:induction false} SlashAfter(a: string, s: string)
    requires '/' !in a && (s == "" || s[0] == '/')
    ensures FirstSlash(a + s) == |a|
  {
    if a == "" {
      assert a + s == s;
    } else {
      assert (a + s)[1..] == a[1..] + s;
      SlashAfter(a[1..], s);
    }
  }

  lemma PosixHead(p: Path)
    requires ValidPath(p)
    ensures FirstSlash(Posix(p)) == |p[0]| && Posix(p)[..|p[0]|] == p[0]
    ensures |p| == 1 ==> |Posix(p)| == |p[0]|
    ensures |p| > 1 ==> |Posix(p)| > |p[0]| && Posix(p)[|p[0]| + 1..] == Posix(p[1..])
  {
    if |p| == 1 {
      SlashAfter(p[0], "");
      assert p[0] + "" == p[0];
    } else {
      SlashAfter(p[0], "/" + Posix(p[1..]));
      assert Posix(p) == p[0] + ("/" + Posix(p[1..]));
    }
  }

  /** Distinct valid paths are written differently. */
  lemma {:induction false} PosixInjective(p: Path, q: Path)
    requires ValidPath(p) && ValidPath(q) && Posix(p) == Posix(q)
    ensures p == q
  {
    PosixHead(p);
    PosixHead(q);
    if |p| > 1 && |q| > 1 {
      PosixInjective(p[1..], q[1..]);
      assert p == [p[0]] + p[1..] && q == [q[0]] + q[1..];
    }
  }

  predicate PathLeq(p: Path, q: Path) { Leq(Posix(p), Posix(q)) }

  /** `d` is a directory on the way to `p`. */
  predicate Above(d: Path, p: Path) { 0 < |d| < |p| && d == p[..|d|] }

  function Ancestors(p: Path): set<Path> { set k | 0 < k < |p| :: p[..k] }

  lemma AncestorsAbove(d: Path, p: Path)
    ensures d in Ancestors(p) <==> Above(d, p)
  {
  }

  lemma AboveTransitive(d: Path, e: Path, p: Path)
    requires Above(d, e) && Above(e, p)
    ensures Above(d, p)
  {
    assert d == p[..|e|][..|d|];
  }

  /** The temporary sits beside the file, under a name made from the file's and the process id. */
  function TempName(name: string, pid: string): string { "." + name + "." + pid + ".tmp" }

  function Temp(p: Path, pid: string): Path
    requires p != []
  {
    p[..|p| - 1] + [TempName(p[|p| - 1], pid)]
  }

  lemma TempBeside(p: Path, pid: string)
    requires p != []
    ensures |Temp(p, pid)| == |p| && Temp(p, pid) != p
  {
    assert |TempName(p[|p| - 1], pid)| > |p[|p| - 1]|;
  }

  // ----- Contents -----

  type Byte = b: int | 0 <= b < 256

  type Bytes = seq<Byte>

  const CR: Byte := 13
  const LF: Byte := 10

  function ReplaceCrLf(s: Bytes): Bytes {
    if |s| >= 2 && s[0] == CR && s[1] == LF then [LF] + ReplaceCrLf(s[2..])
    else if s == [] then []
    else [s[0]] + ReplaceCrLf(s[1..])
  }

  function ReplaceCr(s: Bytes): (r: Bytes)
    ensures |r| == |s|
  {
    if s == [] then [] else [if s[0] == CR then LF else s[0]] + ReplaceCr(s[1..])
  }

  /** Every line ending, CRLF or CR, as LF. */
  function UnixLines(s: Bytes): Bytes { ReplaceCr(ReplaceCrLf(s)) }

  lemma {:induction false} ReplaceCrRemoves(s: Bytes)
    ensures CR !in ReplaceCr(s)
  {
    if s != [] {
      ReplaceCrRemoves(s[1..]);
    }
  }

  lemma {:induction false} NothingToReplace(s: Bytes)
    requires CR !in s
    ensures ReplaceCrLf(s) == s && ReplaceCr(s) == s
  {
    if s != [] {
      NothingToReplace(s[1..]);
      assert s == [s[0]] + s[1..];
    }
  }

  lemma UnixLinesIdempotent(s: Bytes)
    ensures CR !in UnixLines(s)
    ensures UnixLines(UnixLines(s)) == UnixLines(s)
  {
    ReplaceCrRemoves(ReplaceCrLf(s));
    NothingToReplace(UnixLines(s));
  }

  /** Which names carry a text suffix, and which contents decode as UTF-8. */
  datatype Codec = Codec(isText: string -> bool, decodes: Bytes -> bool)

  /** Changing line endings keeps a text decodable. */
  ghost predicate KeepsDecodable(codec: Codec) {
    forall s: Bytes :: codec.decodes(s) ==> codec.decodes(UnixLines(s))
  }

  predicate IsText(p: Path, codec: Codec) { p != [] && codec.isText(p[|p| - 1]) }

  function Normal(p: Path, content: Bytes, codec: Codec): Bytes {
    if IsText(p, codec) then UnixLines(content) else content
  }

  predicate Readable(p: Path, content: Bytes, codec: Codec) { IsText(p, codec) ==> codec.decodes(content) }

  lemma NormalIdempotent(p: Path, content: Bytes, codec: Codec)
    ensures Normal(p, Normal(p, content, codec), codec) == Normal(p, content, codec)
  {
    UnixLinesIdempotent(content);
  }

  // ----- Trees -----

  type Files = map<Path, Bytes>

  /** The directories strictly above some file. */
  function DirsOf(files: set<Path>): set<Path> { set p, d | p in files && d in Ancestors(p) :: d }

  lemma DirsOfContents(files: set<Path>, d: Path)
    ensures d in DirsOf(files) <==> exists p :: p in files && Above(d, p)
  {
    forall p | p in files ensures d in Ancestors(p) <==> Above(d, p) {
      AncestorsAbove(d, p);
    }
  }

  datatype Tree = Tree(files: Files, dirs: set<Path>)

  /** Valid paths, files apart from directories, and every entry inside directories of the tree. */
  ghost predicate WellFormed(t: Tree) {
    && (forall p :: p in t.files || p in t.dirs ==> ValidPath(p))
    && t.files.Keys !! t.dirs
    && (forall p, d :: (p in t.files || p in t.dirs) && Above(d, p) ==> d in t.dirs)
  }

  function NormalFiles(files: Files, codec: Codec): Files {
    map p | p in files :: Normal(p, files[p], codec)
  }

  /** The tree a synchronisation aims at: the normalised files and the directories they need. */
  function Target(source: Files, codec: Codec): Tree {
    Tree(NormalFiles(source, codec), DirsOf(source.Keys))
  }
}
