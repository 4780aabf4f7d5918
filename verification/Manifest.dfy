/** The update manifest and the paths it may name (common/n02_update.cpp): which are accepted, and why
    the files an update touches for one of them are never those it touches for another. */
module Manifest {
  import opened Bytes

  const MAX_FILES := 16
  const MAX_FILE_SIZE := 0x400_0000
  const MAX_PATH := 260

  // ----- paths -----

  function LowerChar(c: char): char {
    if 'A' <= c <= 'Z' then c - 'A' + 'a' else c
  }

  function Lower(s: string): (r: string)
    ensures |r| == |s| && forall i :: 0 <= i < |s| ==> r[i] == LowerChar(s[i])
  {
    seq(|s|, i requires 0 <= i < |s| => LowerChar(s[i]))
  }

  predicate EndsWithNoCase(s: string, suffix: string) {
    |s| >= |suffix| && Lower(s[|s| - |suffix|..]) == Lower(suffix)
  }

  predicate PathChar(c: char) {
    'a' <= c <= 'z' || 'A' <= c <= 'Z' || '0' <= c <= '9' || c in "._- /"
  }

  /** Where the segment that begins at k ends. */
  function SegmentEnd(p: string, k: nat): (e: nat)
    requires k <= |p|
    ensures k <= e <= |p| && (e < |p| ==> p[e] == '/') && forall i :: k <= i < e ==> p[i] != '/'
    decreases |p| - k
  {
    if k == |p| || p[k] == '/' then k else SegmentEnd(p, k + 1)
  }

  predicate SafeSegments(p: string, k: nat)
    requires k <= |p|
    decreases |p| - k
  {
    var e := SegmentEnd(p, k);
    && p[k..e] !in ["", ".", ".."]
    && (e < |p| ==> SafeSegments(p, e + 1))
  }

  /** From a to b lies what stands between two slashes, or between one and an end of the path. */
  ghost predicate IsSegment(p: string, a: nat, b: nat) {
    && a <= b <= |p| && (a == 0 || p[a - 1] == '/') && (b == |p| || p[b] == '/')
    && forall i :: a <= i < b ==> p[i] != '/'
  }

  /** No segment behind the k-th character is empty or leads anywhere but down. */
  ghost predicate LeadsDown(p: string, k: nat) {
    forall a: nat, b: nat :: k <= a && IsSegment(p, a, b) ==> p[a..b] !in ["", ".", ".."]
  }

  /** Walking along the segments decides that. */
  lemma {:induction false} SegmentsLeadDown(p: string, k: nat)
    requires k <= |p| && (k == 0 || p[k - 1] == '/')
    ensures SafeSegments(p, k) <==> LeadsDown(p, k)
    decreases |p| - k
  {
    var e := SegmentEnd(p, k);
    if e < |p| {
      SegmentsLeadDown(p, e + 1);
    }
    FirstSegment(p, k, e);
  }

  /** All segments are the first one and those behind it. */
  lemma FirstSegment(p: string, k: nat, e: nat)
    requires k <= |p| && (k == 0 || p[k - 1] == '/') && e == SegmentEnd(p, k)
    ensures LeadsDown(p, k) <==> p[k..e] !in ["", ".", ".."] && (e < |p| ==> LeadsDown(p, e + 1))
  {
    assert IsSegment(p, k, e);
    forall a: nat, b: nat | k <= a && IsSegment(p, a, b)
      ensures (a == k && b == e) || (e < |p| && e + 1 <= a)
    {
      SegmentIsFirstOrLater(p, k, a, b);
    }
  }

  lemma SegmentIsFirstOrLater(p: string, k: nat, a: nat, b: nat)
    requires k <= a && IsSegment(p, a, b) && (k == 0 || p[k - 1] == '/')
    ensures (a == k && b == SegmentEnd(p, k)) || a > SegmentEnd(p, k)
  {
    var e := SegmentEnd(p, k);
  }

  ghost predicate Safe(p: string) {
    && 0 < |p| < MAX_PATH - 8 && p[0] != '/' && p[|p| - 1] != '/'
    && (forall i :: 0 <= i < |p| ==> PathChar(p[i]))
    && LeadsDown(p, 0)
    && (EndsWithNoCase(p, ".exe") || EndsWithNoCase(p, ".dll") || EndsWithNoCase(p, ".lck"))
  }

  /** The loop over the segments. */
  method CheckSegments(p: string) returns (ok: bool)
    ensures ok <==> LeadsDown(p, 0)
  {
    var seg := 0;
    SegmentsLeadDown(p, 0);
    while true
      invariant seg <= |p| && SafeSegments(p, 0) == SafeSegments(p, seg)
      decreases |p| - seg
    {
      var end := SegmentEnd(p, seg);
      if p[seg..end] in ["", ".", ".."] {
        return false;
      }
      if end == |p| {
        break;
      }
      seg := end + 1;
    }
    return true;
  }

  method SafePackagePath(p: string) returns (ok: bool)
    ensures ok <==> Safe(p)
  {
    if |p| == 0 || |p| >= MAX_PATH - 8 || p[0] == '/' || p[|p| - 1] == '/' {
      return false;
    }
    for c := 0 to |p|
      invariant forall i :: 0 <= i < c ==> PathChar(p[i])
    {
      if !PathChar(p[c]) {
        return false;
      }
    }
    ok := CheckSegments(p);
    if !ok {
      return;
    }
    return EndsWithNoCase(p, ".exe") || EndsWithNoCase(p, ".dll") || EndsWithNoCase(p, ".lck");
  }

  /** A plain file name: letters, digits, and between them '_' and '-'. */
  ghost predicate PlainName(s: string) {
    0 < |s| < MAX_PATH - 12 &&
    forall i :: 0 <= i < |s| ==>
      'a' <= s[i] <= 'z' || 'A' <= s[i] <= 'Z' || '0' <= s[i] <= '9' || s[i] == '_' || s[i] == '-'
  }

  /** The file's own part of a path: a plain name and the ending of a binary. */
  ghost predicate BinaryName(file: string, name: string, ext: string) {
    PlainName(name) && file == name + ext && ext in [".exe", ".dll", ".lck", ".EXE", ".DLL", ".LCK"]
  }

  lemma EndsInBinary(p: string, file: string, name: string, ext: string)
    requires BinaryName(file, name, ext) && |p| >= |file| && p[|p| - |file|..] == file
    ensures EndsWithNoCase(p, ".exe") || EndsWithNoCase(p, ".dll") || EndsWithNoCase(p, ".lck")
  {
    assert p[|p| - 4..] == file[|name|..] == ext;
    assert Lower(".exe") == Lower(".EXE") && Lower(".dll") == Lower(".DLL") && Lower(".lck") == Lower(".LCK");
  }

  lemma BinaryNameChars(file: string, name: string, ext: string)
    requires BinaryName(file, name, ext)
    ensures |file| == |name| + 4 && forall i :: 0 <= i < |file| ==> PathChar(file[i]) && file[i] != '/'
  {
    assert forall i :: 0 <= i < |file| ==> file[i] == if i < |name| then name[i] else ext[i - |name|];
  }

  /** Every plain name of a binary is accepted, whatever the case. */
  lemma PlainNameIsSafe(file: string, name: string, ext: string)
    requires BinaryName(file, name, ext)
    ensures Safe(file)
  {
    BinaryNameChars(file, name, ext);
    EndsInBinary(file, file, name, ext);
    forall a: nat, b: nat | IsSegment(file, a, b)
      ensures |file[a..b]| == |file|
    {
    }
  }

  /** And also in a folder with a plain name. */
  lemma PlainPathIsSafe(folder: string, file: string, name: string, ext: string)
    requires PlainName(folder) && BinaryName(file, name, ext) && |folder| + |name| < MAX_PATH - 13
    ensures Safe(folder + "/" + file)
  {
    var p := folder + "/" + file;
    BinaryNameChars(file, name, ext);
    EndsInBinary(p, file, name, ext);
    forall a: nat, b: nat | IsSegment(p, a, b)
      ensures p[a..b] == folder || p[a..b] == file
    {
      assert p[|folder|] == '/' && p[..|folder|] == folder && p[|folder| + 1..] == file;
      assert a <= |folder| ==> b <= |folder|;
      assert forall i :: |folder| < i < |p| ==> p[i] == file[i - |folder| - 1];
    }
    assert folder[0] != '.';
    assert LeadsDown(p, 0);
  }

  // ----- the names on disk -----

  /** The file system does not tell upper from lower case, and PackageFilePath turns '/' around. */
  function NameChar(c: char): char {
    if c == '/' then '\\' else LowerChar(c)
  }

  function NameOf(path: string, suffix: string): (r: string)
    ensures |r| == |path| + |suffix|
    ensures forall i :: 0 <= i < |path| ==> r[i] == NameChar(path[i])
    ensures r[|path|..] == suffix
  {
    seq(|path|, i requires 0 <= i < |path| => NameChar(path[i])) + suffix
  }

  /** OldFilePath's suffix, for n from 1 to 9. */
  function OldSuffix(n: nat): string {
    if n <= 1 then ".old" else ".old" + ['0' + (n % 10) as char]
  }

  function Target(path: string): string { NameOf(path, "") }
  function NewName(path: string): string { NameOf(path, ".new") }
  function OldName(path: string, n: nat): string { NameOf(path, OldSuffix(n)) }

  /** What these names look like. */
  lemma NamesOnDisk(folder: string, file: string)
    requires (forall i :: 0 <= i < |folder| ==> 'a' <= folder[i] <= 'z')
             && (forall i :: 0 <= i < |file| ==> 'a' <= file[i] <= 'z')
    ensures Target(folder + "/" + file) == folder + "\\" + file
    ensures NewName(folder + "/" + file) == folder + "\\" + file + ".new"
    ensures OldName(folder + "/" + file, 1) == folder + "\\" + file + ".old"
    ensures OldName(folder + "/" + file, 2) == folder + "\\" + file + ".old2"
  {
    assert OldSuffix(2) == ".old2";
  }

  const KINDS := 11

  /** The file itself, the downloaded one, and the nine old ones. */
  function Suffix(kind: nat): string {
    if kind == 0 then "" else if kind == 1 then ".new" else OldSuffix(kind - 1)
  }

  /** All the names that replacing one file may touch. */
  ghost predicate Touches(path: string, name: string) {
    exists kind :: 0 <= kind < KINDS && name == NameOf(path, Suffix(kind))
  }

  /** The last character tells what kind of name it is. */
  function KindOfLast(c: char): nat {
    if c in "elk" then 0 else if c == 'w' then 1 else if c == 'd' then 2
    else if '0' <= c <= '9' then 1 + (c - '0') as nat else KINDS
  }

  lemma LastTellsKind(path: string, kind: nat)
    requires Safe(path) && kind < KINDS
    ensures var name := NameOf(path, Suffix(kind));
            name != "" && KindOfLast(name[|name| - 1]) == kind
  {
    var name := NameOf(path, Suffix(kind));
    if kind == 0 {
      assert name[|name| - 1] == NameChar(path[|path| - 1]);
      assert Lower(path[|path| - 4..])[3] == LowerChar(path[|path| - 1]);
    } else {
      assert name[|name| - 1] == name[|path|..][|Suffix(kind)| - 1];
    }
  }

  /** Two accepted paths that differ in more than case have different names on disk, whatever the
      suffix, as long as it is the same one. */
  lemma NamesDiffer(p: string, q: string, suffix: string)
    requires Safe(p) && Safe(q) && Lower(p) != Lower(q)
    ensures NameOf(p, suffix) != NameOf(q, suffix)
  {
    if |p| == |q| {
      var i :| 0 <= i < |p| && Lower(p)[i] != Lower(q)[i];
      assert PathChar(p[i]) && PathChar(q[i]);
      assert NameOf(p, suffix)[i] != NameOf(q, suffix)[i];
    }
  }

  lemma SameKind(p: string, q: string, k: nat, m: nat)
    requires Safe(p) && Safe(q) && k < KINDS && m < KINDS && NameOf(p, Suffix(k)) == NameOf(q, Suffix(m))
    ensures k == m
  {
    LastTellsKind(p, k);
    LastTellsKind(q, m);
  }

  /** No name is touched for both of two accepted paths that differ in more than case. */
  lemma TouchedNamesDiffer(p: string, q: string, name: string)
    requires Safe(p) && Safe(q) && Lower(p) != Lower(q)
    ensures !(Touches(p, name) && Touches(q, name))
  {
    if Touches(p, name) && Touches(q, name) {
      var k :| 0 <= k < KINDS && name == NameOf(p, Suffix(k));
      var m :| 0 <= m < KINDS && name == NameOf(q, Suffix(m));
      SameKind(p, q, k, m);
      NamesDiffer(p, q, Suffix(k));
    }
  }

  /** And the names touched for one path are all different. */
  lemma OwnNamesDiffer(path: string, n: nat)
    requires Safe(path) && 1 <= n <= 9
    ensures Target(path) != NewName(path) && Target(path) != OldName(path, n) && NewName(path) != OldName(path, n)
    ensures Touches(path, Target(path)) && Touches(path, NewName(path)) && Touches(path, OldName(path, n))
  {
    LastTellsKind(path, 0);
    LastTellsKind(path, 1);
    LastTellsKind(path, 1 + n);
    assert Suffix(0) == "" && Suffix(1) == ".new" && Suffix(1 + n) == OldSuffix(n);
  }

  lemma OldNamesDiffer(path: string, m: nat, n: nat)
    requires 1 <= m < n <= 9
    ensures OldName(path, m) != OldName(path, n)
  {
    OldSuffixesDiffer(m, n);
    SameSuffix(path, OldSuffix(m), OldSuffix(n));
  }

  lemma OldSuffixesDiffer(m: nat, n: nat)
    requires 1 <= m < n <= 9
    ensures OldSuffix(m) != OldSuffix(n)
  {
    assert |OldSuffix(n)| == 5 && OldSuffix(n)[4] == '0' + n as char;
    if m > 1 {
      assert OldSuffix(m)[4] == '0' + m as char;
    }
  }

  lemma SameSuffix(path: string, a: string, b: string)
    requires a != b
    ensures NameOf(path, a) != NameOf(path, b)
  {
    assert NameOf(path, a)[|path|..] == a && NameOf(path, b)[|path|..] == b;
  }

  // ----- the manifest -----

  datatype PackageFile = PackageFile(path: string, sha256: string, size: int, download: bool)

  datatype Package = Package(version: string, name: string, files: seq<PackageFile>)

  /** What SwapPackage relies on: plain relative paths to binaries, no two of which name one file. */
  ghost predicate Accepted(files: seq<PackageFile>) {
    && |files| <= MAX_FILES
    && (forall i :: 0 <= i < |files| ==> Safe(files[i].path))
    && (forall i, j :: 0 <= i < j < |files| ==> Lower(files[i].path) != Lower(files[j].path))
  }

  function IndexOf(s: string, c: char, k: nat): (i: nat)
    requires k <= |s|
    ensures k <= i <= |s| && (i < |s| ==> s[i] == c)
    decreases |s| - k
  {
    if k == |s| || s[k] == c then k else IndexOf(s, c, k + 1)
  }

  /** At most max fields; what follows the tab behind the last one is dropped. */
  function SplitTabs(line: string, max: nat): (f: seq<string>)
    decreases |line|
  {
    if max == 0 then []
    else
      var i := IndexOf(line, '\t', 0);
      [line[..i]] + if i == |line| then [] else SplitTabs(line[i + 1..], max - 1)
  }

  predicate IsSha256Hex(s: string) {
    |s| == 64 && forall i :: 0 <= i < 64 ==> '0' <= s[i] <= '9' || 'a' <= s[i] <= 'f'
  }

  function DigitsValue(s: string): (r: Option<int>)
    decreases |s|
  {
    if s == "" then Some(0)
    else
      var d, rest := s[|s| - 1], DigitsValue(s[..|s| - 1]);
      if rest.None? || !('0' <= d <= '9') then None else Some(10 * rest.value + (d - '0') as int)
  }

  /** What isspace knows, of which a field can hold all but tab and newline. */
  const BLANKS: string := " \t\n\U{0B}\U{0C}\r"

  /** A whole field as a decimal number: blanks, a sign, and digits to the end. */
  function SizeField(s: string): Option<int>
    decreases |s|
  {
    if s != "" && s[0] in BLANKS then SizeField(s[1..])
    else
      var digits := if s != "" && s[0] in "+-" then s[1..] else s;
      if digits == "" || DigitsValue(digits).None? then None
      else Some(if s[0] == '-' then -DigitsValue(digits).value else DigitsValue(digits).value)
  }

  /** A line of the manifest without its '\n'. */
  function Fields(line: string): seq<string> {
    SplitTabs(if line != "" && line[|line| - 1] == '\r' then line[..|line| - 1] else line, 5)
  }

  ghost predicate NewPath(files: seq<PackageFile>, path: string) {
    forall i :: 0 <= i < |files| ==> Lower(files[i].path) != Lower(path)
  }

  method IsNewPath(files: seq<PackageFile>, path: string) returns (b: bool)
    ensures b <==> NewPath(files, path)
  {
    for i := 0 to |files|
      invariant forall j :: 0 <= j < i ==> Lower(files[j].path) != Lower(path)
    {
      if Lower(files[i].path) == Lower(path) {
        return false;
      }
    }
    return true;
  }

  predicate GoodSize(s: string) {
    SizeField(s).Some? && 0 <= SizeField(s).value <= MAX_FILE_SIZE
  }

  /** What the manifest may add to the files it has named before. */
  ghost predicate Addable(files: seq<PackageFile>, f: seq<string>)
    requires |f| == 4
  {
    |files| < MAX_FILES && IsSha256Hex(f[1]) && Safe(f[3]) && GoodSize(f[2]) && NewPath(files, f[3])
  }

  method AddFile(files: seq<PackageFile>, f: seq<string>) returns (r: Option<PackageFile>)
    requires |f| == 4
    ensures r.Some? <==> Addable(files, f)
    ensures r.Some? ==> GoodSize(f[2]) && r.value == PackageFile(f[3], f[1], SizeField(f[2]).value, false)
  {
    var safe := SafePackagePath(f[3]);
    if |files| >= MAX_FILES || !IsSha256Hex(f[1]) || !safe {
      return None;
    }
    if !GoodSize(f[2]) {
      return None;
    }
    var isNew := IsNewPath(files, f[3]);
    if !isNew {
      return None;
    }
    return Some(PackageFile(f[3], f[1], SizeField(f[2]).value, false));
  }

  /** The fields of every line from position `at` on. */
  function LinesFrom(text: string, at: nat): seq<seq<string>>
    requires at <= |text|
    decreases |text| - at
  {
    if at == |text| then []
    else
      var end := IndexOf(text, '\n', at);
      [Fields(text[at..end])] + LinesFrom(text, if end < |text| then end + 1 else end)
  }

  predicate IsFileLine(f: seq<string>) {
    |f| == 4 && f[0] == "arquivo"
  }

  function FileLines(lines: seq<seq<string>>): (r: seq<seq<string>>)
    ensures forall i :: 0 <= i < |r| ==> |r[i]| == 4
  {
    if lines == [] then [] else (if IsFileLine(lines[0]) then [lines[0]] else []) + FileLines(lines[1..])
  }

  /** What the last line of two fields with this key says, cut to max characters. */
  function LastOf(lines: seq<seq<string>>, key: string, max: nat): string {
    if lines == [] then ""
    else
      var f := lines[|lines| - 1];
      if |f| == 2 && f[0] == key then f[1][..Min(|f[1]|, max)] else LastOf(lines[..|lines| - 1], key, max)
  }

  /** The lines that name files may stand in one manifest: at most 16, each with a hash, a size and a safe
      path, and no two of which differ at most in case. */
  ghost predicate Acceptable(fs: seq<seq<string>>)
    requires forall i :: 0 <= i < |fs| ==> |fs[i]| == 4
  {
    && |fs| <= MAX_FILES
    && (forall i :: 0 <= i < |fs| ==> IsSha256Hex(fs[i][1]) && GoodSize(fs[i][2]) && Safe(fs[i][3]))
    && (forall i, j :: 0 <= i < j < |fs| ==> Lower(fs[i][3]) != Lower(fs[j][3]))
  }

  function FileOf(f: seq<string>): PackageFile
    requires |f| == 4
  {
    PackageFile(f[3], f[1], if SizeField(f[2]).Some? then SizeField(f[2]).value else 0, false)
  }

  function FilesOf(fs: seq<seq<string>>): (files: seq<PackageFile>)
    requires forall i :: 0 <= i < |fs| ==> |fs[i]| == 4
    ensures |files| == |fs| && forall i :: 0 <= i < |fs| ==> files[i] == FileOf(fs[i])
  {
    seq(|fs|, i requires 0 <= i < |fs| => FileOf(fs[i]))
  }

  /** The files of a manifest that is accepted can be replaced independently of each other. */
  lemma AcceptableIsAccepted(fs: seq<seq<string>>)
    requires (forall i :: 0 <= i < |fs| ==> |fs[i]| == 4) && Acceptable(fs)
    ensures Accepted(FilesOf(fs))
  {
  }

  lemma AcceptableSnoc(fs: seq<seq<string>>, f: seq<string>)
    requires (forall i :: 0 <= i < |fs| ==> |fs[i]| == 4) && |f| == 4 && Acceptable(fs)
    ensures Acceptable(fs + [f]) <==> Addable(FilesOf(fs), f)
    ensures FilesOf(fs + [f]) == FilesOf(fs) + [FileOf(f)]
  {
    var all, files := fs + [f], FilesOf(fs);
    if Addable(files, f) {
      forall i | 0 <= i < |fs|
        ensures Lower(all[i][3]) != Lower(f[3])
      {
        assert files[i].path == fs[i][3];
      }
    }
    if Acceptable(all) {
      assert all[|fs|] == f;
      forall i | 0 <= i < |fs|
        ensures Lower(files[i].path) != Lower(f[3])
      {
        assert all[i] == fs[i];
      }
    }
  }

  lemma AcceptablePrefix(fs: seq<seq<string>>, more: seq<seq<string>>)
    requires forall i :: 0 <= i < |fs + more| ==> |(fs + more)[i]| == 4
    requires Acceptable(fs + more)
    ensures (forall i :: 0 <= i < |fs| ==> |fs[i]| == 4) && Acceptable(fs)
  {
    var all := fs + more;
    assert forall i :: 0 <= i < |fs| ==> all[i] == fs[i];
  }

  lemma {:induction false} FileLinesJoin(a: seq<seq<string>>, b: seq<seq<string>>)
    ensures FileLines(a + b) == FileLines(a) + FileLines(b)
    decreases |a|
  {
    if a == [] {
      assert a + b == b;
    } else {
      FileLinesJoin(a[1..], b);
      assert (a + b)[0] == a[0] && (a + b)[1..] == a[1..] + b;
      Regrouped(if IsFileLine(a[0]) then [a[0]] else [], FileLines(a[1..]), FileLines(b));
    }
  }

  lemma LastOfSnoc(lines: seq<seq<string>>, f: seq<string>, key: string, max: nat)
    ensures LastOf(lines + [f], key, max) ==
            if |f| == 2 && f[0] == key then f[1][..Min(|f[1]|, max)] else LastOf(lines, key, max)
  {
    assert (lines + [f])[..|lines|] == lines;
  }

  /** The package that the lines read so far make up. */
  ghost predicate Gathered(lines: seq<seq<string>>, version: string, name: string, files: seq<PackageFile>) {
    && Acceptable(FileLines(lines)) && files == FilesOf(FileLines(lines))
    && version == LastOf(lines, "versao", 63) && name == LastOf(lines, "pacote", 127)
  }

  lemma FileLinesSnoc(lines: seq<seq<string>>, f: seq<string>)
    ensures FileLines(lines + [f]) == FileLines(lines) + if IsFileLine(f) then [f] else []
  {
    FileLinesJoin(lines, [f]);
    assert FileLines([f]) == (if IsFileLine(f) then [f] else []) + FileLines([]);
  }

  /** One more line that names no file. */
  lemma OtherLine(lines: seq<seq<string>>, f: seq<string>, version: string, name: string, files: seq<PackageFile>)
    requires Gathered(lines, version, name, files) && !IsFileLine(f)
    ensures Gathered(lines + [f], LastOf(lines + [f], "versao", 63), LastOf(lines + [f], "pacote", 127), files)
  {
    FileLinesSnoc(lines, f);
    assert FileLines(lines) + [] == FileLines(lines);
  }

  /** One more line that names a file. */
  lemma FileLine(lines: seq<seq<string>>, f: seq<string>, version: string, name: string, files: seq<PackageFile>)
    requires Gathered(lines, version, name, files) && IsFileLine(f)
    ensures Acceptable(FileLines(lines + [f])) <==> Addable(files, f)
    ensures Addable(files, f) ==> Gathered(lines + [f], version, name, files + [FileOf(f)])
  {
    FileLinesSnoc(lines, f);
    AcceptableSnoc(FileLines(lines), f);
    LastOfSnoc(lines, f, "versao", 63);
    LastOfSnoc(lines, f, "pacote", 127);
  }

  lemma RejectedForGood(lines: seq<seq<string>>, rest: seq<seq<string>>)
    requires !Acceptable(FileLines(lines))
    ensures !Acceptable(FileLines(lines + rest))
  {
    FileLinesJoin(lines, rest);
    if Acceptable(FileLines(lines + rest)) {
      AcceptablePrefix(FileLines(lines), FileLines(rest));
    }
  }

  /** What one line adds to the package, if it may. */
  method TakeLine(f: seq<string>, version: string, name: string, files: seq<PackageFile>, ghost seen: seq<seq<string>>)
    returns (ok: bool, version': string, name': string, files': seq<PackageFile>)
    requires Gathered(seen, version, name, files)
    ensures if ok then Gathered(seen + [f], version', name', files') else !Acceptable(FileLines(seen + [f]))
  {
    ok, version', name', files' := true, version, name, files;
    LastOfSnoc(seen, f, "versao", 63);
    LastOfSnoc(seen, f, "pacote", 127);
    if IsFileLine(f) {
      FileLine(seen, f, version, name, files);
      var added := AddFile(files, f);
      if added.None? {
        return false, version, name, files;
      }
      files' := files + [added.value];
    } else {
      OtherLine(seen, f, version, name, files);
      if |f| == 2 && f[0] == "versao" {
        version' := f[1][..Min(|f[1]|, 63)];
      } else if |f| == 2 && f[0] == "pacote" {
        name' := f[1][..Min(|f[1]|, 127)];
      }
    }
  }

  /** The lines up to `at` were seen. */
  ghost predicate Seen(text: string, at: nat, seen: seq<seq<string>>, lines: seq<seq<string>>) {
    at <= |text| && lines == seen + LinesFrom(text, at)
  }

  lemma SeenNext(text: string, at: nat, seen: seq<seq<string>>, lines: seq<seq<string>>, end: nat, next: nat)
    requires Seen(text, at, seen, lines) && at < |text| && end == IndexOf(text, '\n', at)
    requires next == if end < |text| then end + 1 else end
    ensures Seen(text, next, seen + [Fields(text[at..end])], lines)
  {
    Regrouped(seen, [Fields(text[at..end])], LinesFrom(text, next));
  }

  lemma AllSeen(text: string, at: nat, seen: seq<seq<string>>, lines: seq<seq<string>>)
    requires Seen(text, at, seen, lines) && at == |text|
    ensures seen == lines
  {
    assert seen + [] == seen;
  }

  /** The lines are those of an acceptable manifest, and make up this package; or they are not. */
  ghost predicate Says(lines: seq<seq<string>>, r: Option<Package>) {
    var version, fs := LastOf(lines, "versao", 63), FileLines(lines);
    && (r.Some? <==> Acceptable(fs) && fs != [] && version != "")
    && (r.Some? ==> r.value == Package(version, LastOf(lines, "pacote", 127), FilesOf(fs)))
  }

  lemma RejectedSays(text: string, at: nat, seen: seq<seq<string>>, lines: seq<seq<string>>)
    requires Seen(text, at, seen, lines) && !Acceptable(FileLines(seen))
    ensures Says(lines, None)
  {
    RejectedForGood(seen, LinesFrom(text, at));
  }

  lemma GatheredSays(lines: seq<seq<string>>, version: string, name: string, files: seq<PackageFile>)
    requires Gathered(lines, version, name, files)
    ensures Says(lines, if version == "" || files == [] then None else Some(Package(version, name, files)))
    ensures Accepted(files)
  {
    AcceptableIsAccepted(FileLines(lines));
  }

  /** A manifest is accepted if and only if the lines that name files are acceptable, there is one, and a
      version is given; the package is then what the lines say. (The text is that of a C string, up to its
      NUL.) The files of a package can be replaced independently of each other. */
  method ParseManifest(text: string) returns (r: Option<Package>)
    ensures Says(LinesFrom(text, 0), r)
    ensures r.Some? ==> Accepted(r.value.files)
  {
    var version, name, files: seq<PackageFile> := "", "", [];
    var at := 0;
    ghost var lines, seen := LinesFrom(text, 0), [];
    while at < |text|
      invariant Seen(text, at, seen, lines) && Gathered(seen, version, name, files)
      decreases |text| - at
    {
      var end := IndexOf(text, '\n', at);
      var f := Fields(text[at..end]);
      var next := if end < |text| then end + 1 else end;
      SeenNext(text, at, seen, lines, end, next);
      var ok;
      ok, version, name, files := TakeLine(f, version, name, files, seen);
      seen, at := seen + [f], next;
      if !ok {
        RejectedSays(text, at, seen, lines);
        return None;
      }
    }
    AllSeen(text, at, seen, lines);
    GatheredSays(lines, version, name, files);
    if version == "" || files == [] {
      return None;
    }
    return Some(Package(version, name, files));
  }
}
