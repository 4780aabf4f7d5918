/** The manifest's text format (common/n02_update.cpp): the lines that say a package are read back as that package. */
module ManifestText {
  import opened Bytes
  import opened Manifest

  // ----- fields and lines -----

  ghost predicate Without(s: string, c: char) {
    forall i :: 0 <= i < |s| ==> s[i] != c
  }

  /** A text that a field can hold. */
  ghost predicate Plain(s: string) {
    Without(s, '\t') && Without(s, '\n')
  }

  ghost predicate AllPlain(f: seq<string>) {
    forall i :: 0 <= i < |f| ==> Plain(f[i])
  }

  /** The fields of a line; the carriage return before its end would not count as part of the last one. */
  ghost predicate LineOk(f: seq<string>) {
    && 0 < |f| <= 5 && AllPlain(f)
    && (f[|f| - 1] != "" ==> f[|f| - 1][|f[|f| - 1]| - 1] != '\r') && f != [""]
  }

  function Joined(f: seq<string>): string
    decreases |f|
  {
    if f == [] then "" else if |f| == 1 then f[0] else f[0] + ("\t" + Joined(f[1..]))
  }

  function Text(lines: seq<seq<string>>): string {
    if lines == [] then "" else Joined(lines[0]) + ("\n" + Text(lines[1..]))
  }

  lemma {:induction false} IndexIsFirst(s: string, c: char, k: nat, n: nat)
    requires k <= n <= |s| && (n < |s| ==> s[n] == c) && forall i :: k <= i < n ==> s[i] != c
    ensures IndexOf(s, c, k) == n
    decreases n - k
  {
    if k < n {
      IndexIsFirst(s, c, k + 1, n);
    }
  }

  lemma PartsOf(pre: string, head: string, c: char, rest: string, s: string)
    requires s == pre + (head + ([c] + rest))
    ensures |s| == |pre| + |head| + 1 + |rest| && s[|pre| + |head|] == c
    ensures s[|pre|..|pre| + |head|] == head && s[|pre| + |head| + 1..] == rest
  {
  }

  /** The first separator behind `pre` is the one that was put there. */
  lemma FirstSeparator(pre: string, head: string, c: char, rest: string, s: string)
    requires Without(head, c) && s == pre + (head + ([c] + rest))
    ensures IndexOf(s, c, |pre|) == |pre| + |head| < |s|
    ensures s[|pre|..|pre| + |head|] == head && s[|pre| + |head| + 1..] == rest
  {
    PartsOf(pre, head, c, rest, s);
    forall i | |pre| <= i < |pre| + |head|
      ensures s[i] != c
    {
      assert s[i] == s[|pre|..|pre| + |head|][i - |pre|];
    }
    IndexIsFirst(s, c, |pre|, |pre| + |head|);
  }

  ghost predicate SplitsTo(line: string, max: nat, f: seq<string>) {
    SplitTabs(line, max) == f
  }

  lemma SplitOne(head: string, max: nat)
    requires Without(head, '\t') && max > 0
    ensures SplitsTo(head, max, [head])
  {
    IndexIsFirst(head, '\t', 0, |head|);
    assert head[..|head|] == head;
  }

  lemma SplitFirst(head: string, rest: string, max: nat, line: string, f: seq<string>)
    requires Without(head, '\t') && max > 0 && line == head + ("\t" + rest) && SplitsTo(rest, max - 1, f)
    ensures SplitsTo(line, max, [head] + f)
  {
    assert line == "" + (head + (['\t'] + rest));
    FirstSeparator("", head, '\t', rest, line);
  }

  /** Splitting undoes joining. */
  lemma {:induction false} SplitUndoesJoin(f: seq<string>, max: nat)
    requires 0 < |f| <= max && AllPlain(f)
    ensures SplitsTo(Joined(f), max, f)
    decreases |f|
  {
    if |f| == 1 {
      SplitOne(f[0], max);
      assert f == [f[0]];
    } else {
      SplitUndoesJoin(f[1..], max - 1);
      SplitFirst(f[0], Joined(f[1..]), max, Joined(f), f[1..]);
      assert f == [f[0]] + f[1..];
    }
  }

  /** The last character of a line is that of its last field, or a tab. */
  lemma {:induction false} LastOfJoined(f: seq<string>)
    requires LineOk(f)
    ensures Joined(f) != "" && Joined(f)[|Joined(f)| - 1] != '\r'
    decreases |f|
  {
    if |f| > 1 {
      var rest := Joined(f[1..]);
      if f[1..] != [""] {
        LastOfJoined(f[1..]);
      }
      LastOfSum(f[0], "\t" + rest);
    }
  }

  lemma LastOfSum(a: string, b: string)
    requires b != ""
    ensures (a + b)[|a + b| - 1] == b[|b| - 1]
  {
  }

  lemma WithoutSum(a: string, b: string, c: char)
    requires Without(a, c) && Without(b, c)
    ensures Without(a + b, c)
  {
  }

  lemma {:induction false} NoNewlineInJoined(f: seq<string>)
    requires AllPlain(f)
    ensures Without(Joined(f), '\n')
    decreases |f|
  {
    if |f| > 1 {
      NoNewlineInJoined(f[1..]);
      WithoutSum("\t", Joined(f[1..]), '\n');
      WithoutSum(f[0], "\t" + Joined(f[1..]), '\n');
    }
  }

  lemma FieldsOfLine(f: seq<string>)
    requires LineOk(f)
    ensures Fields(Joined(f)) == f
  {
    LastOfJoined(f);
    SplitUndoesJoin(f, 5);
  }

  lemma LineReads(f: seq<string>, line: string)
    requires LineOk(f) && line == Joined(f)
    ensures Fields(line) == f && Without(line, '\n')
  {
    NoNewlineInJoined(f);
    FieldsOfLine(f);
  }

  ghost predicate Reads(text: string, at: nat, lines: seq<seq<string>>) {
    at <= |text| && LinesFrom(text, at) == lines
  }

  lemma OneLine(text: string, at: nat, end: nat, line: string, f: seq<string>, next: nat, rest: seq<seq<string>>)
    requires at <= end < |text| && end == IndexOf(text, '\n', at) && text[at..end] == line && Fields(line) == f
    requires next == end + 1 && Reads(text, next, rest)
    ensures Reads(text, at, [f] + rest)
  {
  }

  lemma LineIsFound(pre: string, line: string, behind: string, text: string, f: seq<string>, next: string,
                    rest: seq<seq<string>>)
    requires Without(line, '\n') && text == pre + (line + (['\n'] + behind)) && Fields(line) == f
    requires |next| == |pre| + |line| + 1 && Reads(text, |next|, rest)
    ensures Reads(text, |pre|, [f] + rest)
  {
    var end := |pre| + |line|;
    FirstSeparator(pre, line, '\n', behind, text);
    OneLine(text, |pre|, end, line, f, |next|, rest);
  }

  lemma LineBreak(pre: string, line: string, behind: string, next: string)
    requires next == pre + line + "\n"
    ensures |next| == |pre| + |line| + 1 && pre + (line + ("\n" + behind)) == next + behind
    ensures "\n" + behind == ['\n'] + behind
  {
  }

  /** Whatever stands before, the lines of a text are found. */
  lemma {:induction false} LinesAreFound(pre: string, lines: seq<seq<string>>, text: string)
    requires (forall i :: 0 <= i < |lines| ==> LineOk(lines[i])) && text == pre + Text(lines)
    ensures Reads(text, |pre|, lines)
    decreases |lines|
  {
    if lines != [] {
      var line, behind := Joined(lines[0]), Text(lines[1..]);
      LineReads(lines[0], line);
      var next := pre + line + "\n";
      LineBreak(pre, line, behind, next);
      LinesAreFound(next, lines[1..], text);
      LineIsFound(pre, line, behind, text, lines[0], next, lines[1..]);
      assert lines == [lines[0]] + lines[1..];
    }
  }

  // ----- numbers -----

  function Decimal(n: nat): (s: string)
    ensures s != ""
  {
    (if n < 10 then "" else Decimal(n / 10)) + ['0' + (n % 10) as char]
  }

  ghost predicate IsNumeral(s: string, n: int) {
    DigitsValue(s) == Some(n) && forall i :: 0 <= i < |s| ==> '0' <= s[i] <= '9'
  }

  lemma NumeralSnoc(s: string, n: nat, d: nat)
    requires IsNumeral(s, n) && d < 10
    ensures IsNumeral(s + ['0' + d as char], 10 * n + d)
  {
    var t := s + ['0' + d as char];
    assert t[..|t| - 1] == s;
  }

  lemma {:induction false} DecimalIsNumeral(n: nat)
    ensures IsNumeral(Decimal(n), n)
  {
    if n >= 10 {
      DecimalIsNumeral(n / 10);
      NumeralSnoc(Decimal(n / 10), n / 10, n % 10);
    } else {
      assert IsNumeral("", 0);
      NumeralSnoc("", 0, n);
    }
  }

  lemma NumeralIsSize(s: string, n: int)
    requires s != "" && IsNumeral(s, n)
    ensures SizeField(s) == Some(n) && Plain(s)
  {
  }

  lemma DecimalIsSize(n: nat)
    ensures SizeField(Decimal(n)) == Some(n) && Plain(Decimal(n))
  {
    DecimalIsNumeral(n);
    NumeralIsSize(Decimal(n), n);
  }

  lemma {:induction false} BlanksDoNotCount(blanks: string, s: string)
    requires forall i :: 0 <= i < |blanks| ==> blanks[i] in BLANKS
    ensures SizeField(blanks + s) == SizeField(s)
    decreases |blanks|
  {
    if blanks == "" {
      assert blanks + s == s;
    } else {
      BlanksDoNotCount(blanks[1..], s);
      assert (blanks + s)[0] == blanks[0] && (blanks + s)[1..] == blanks[1..] + s;
    }
  }

  lemma SignedSize(s: string, sign: char, n: nat)
    requires s != "" && DigitsValue(s) == Some(n) && sign in "+-"
    ensures SizeField([sign] + s).Some? && SizeField([sign] + s).value == if sign == '-' then 0 - n else n
  {
    assert ([sign] + s)[1..] == s;
  }

  /** Which sizes are accepted: those up to the limit, however they are signed and whatever blanks stand before. */
  lemma SizesAccepted(blanks: string, n: nat)
    requires forall i :: 0 <= i < |blanks| ==> blanks[i] in BLANKS
    ensures GoodSize(blanks + Decimal(n)) <==> n <= MAX_FILE_SIZE
    ensures GoodSize(blanks + ("+" + Decimal(n))) <==> n <= MAX_FILE_SIZE
    ensures GoodSize(blanks + ("-" + Decimal(n))) <==> n == 0
  {
    DecimalIsSize(n);
    DecimalIsNumeral(n);
    SignedSize(Decimal(n), '+', n);
    SignedSize(Decimal(n), '-', n);
    BlanksDoNotCount(blanks, Decimal(n));
    BlanksDoNotCount(blanks, "+" + Decimal(n));
    BlanksDoNotCount(blanks, "-" + Decimal(n));
  }

  // ----- the whole manifest -----

  function FileFields(file: PackageFile): seq<string>
    requires file.size >= 0
  {
    ["arquivo", file.sha256, Decimal(file.size), file.path]
  }

  function FileLinesOf(files: seq<PackageFile>): (fs: seq<seq<string>>)
    requires forall i :: 0 <= i < |files| ==> files[i].size >= 0
    ensures |fs| == |files| && forall i :: 0 <= i < |files| ==> fs[i] == FileFields(files[i])
  {
    seq(|files|, i requires 0 <= i < |files| => FileFields(files[i]))
  }

  /** A package that can be published: an acceptable set of files with their hashes and sizes, none downloaded yet,
      and a version and a name that fit their fields. */
  ghost predicate Publishable(p: Package) {
    && p.files != [] && Accepted(p.files)
    && (forall i :: 0 <= i < |p.files| ==>
          IsSha256Hex(p.files[i].sha256) && 0 <= p.files[i].size <= MAX_FILE_SIZE && !p.files[i].download)
    && p.version != "" && |p.version| <= 63 && |p.name| <= 127
    && LineOk(["versao", p.version]) && LineOk(["pacote", p.name])
  }

  function Lines(p: Package): seq<seq<string>>
    requires forall i :: 0 <= i < |p.files| ==> p.files[i].size >= 0
  {
    [["versao", p.version], ["pacote", p.name]] + FileLinesOf(p.files)
  }

  lemma PathIsPlain(path: string)
    requires path != "" && forall i :: 0 <= i < |path| ==> PathChar(path[i])
    ensures Plain(path) && path[|path| - 1] != '\r'
  {
    forall i | 0 <= i < |path|
      ensures path[i] != '\t' && path[i] != '\n' && path[i] != '\r'
    {
      assert PathChar(path[i]);
    }
  }

  lemma HashIsPlain(s: string)
    requires IsSha256Hex(s)
    ensures Plain(s)
  {
  }

  lemma FourPlain(a: string, b: string, c: string, d: string)
    requires Plain(a) && Plain(b) && Plain(c) && Plain(d) && d != "" && d[|d| - 1] != '\r'
    ensures LineOk([a, b, c, d])
  {
  }

  lemma FileIsRead(file: PackageFile, size: string)
    requires SizeField(size) == Some(file.size) && 0 <= file.size <= MAX_FILE_SIZE && !file.download
    ensures GoodSize(size) && FileOf(["arquivo", file.sha256, size, file.path]) == file
  {
  }

  lemma FileLineOk(file: PackageFile)
    requires Safe(file.path) && IsSha256Hex(file.sha256) && 0 <= file.size <= MAX_FILE_SIZE && !file.download
    ensures LineOk(FileFields(file)) && GoodSize(FileFields(file)[2]) && FileOf(FileFields(file)) == file
  {
    var size := Decimal(file.size);
    DecimalIsSize(file.size);
    FileIsRead(file, size);
    FieldsArePlain(file, size);
  }

  lemma FieldsArePlain(file: PackageFile, size: string)
    requires file.path != "" && (forall i :: 0 <= i < |file.path| ==> PathChar(file.path[i]))
    requires IsSha256Hex(file.sha256) && Plain(size)
    ensures LineOk(["arquivo", file.sha256, size, file.path])
  {
    PathIsPlain(file.path);
    HashIsPlain(file.sha256);
    FourPlain("arquivo", file.sha256, size, file.path);
  }

  lemma {:induction false} FilesAreFileLines(fs: seq<seq<string>>)
    requires forall i :: 0 <= i < |fs| ==> IsFileLine(fs[i])
    ensures FileLines(fs) == fs
    decreases |fs|
  {
    if fs != [] {
      FilesAreFileLines(fs[1..]);
      assert fs == [fs[0]] + fs[1..];
    }
  }

  lemma {:induction false} FilesSayNoKey(lines: seq<seq<string>>, fs: seq<seq<string>>, key: string, max: nat)
    requires forall i :: 0 <= i < |fs| ==> IsFileLine(fs[i])
    ensures LastOf(lines + fs, key, max) == LastOf(lines, key, max)
    decreases |fs|
  {
    if fs == [] {
      assert lines + fs == lines;
    } else {
      var n := |fs| - 1;
      FilesSayNoKey(lines, fs[..n], key, max);
      assert (lines + fs)[..|lines| + n] == lines + fs[..n] && (lines + fs)[|lines| + n] == fs[n];
    }
  }

  lemma HeadSays(p: Package)
    requires Publishable(p)
    ensures var head := [["versao", p.version], ["pacote", p.name]];
            && LastOf(head, "versao", 63) == p.version && LastOf(head, "pacote", 127) == p.name
            && FileLines(head) == []
  {
    var v := ["versao", p.version];
    assert [v, ["pacote", p.name]][..1] == [v] && [v][..0] == [];
    assert p.version[..|p.version|] == p.version && p.name[..|p.name|] == p.name;
    assert FileLines([v, ["pacote", p.name]]) == [] + FileLines([["pacote", p.name]]);
    assert FileLines([["pacote", p.name]]) == [] + FileLines([]);
  }

  lemma FilesComeBack(files: seq<PackageFile>)
    requires Publishable(Package("", "", files).(version := "1"))
    ensures var fs := FileLinesOf(files);
            && Acceptable(fs) && FilesOf(fs) == files
            && forall i :: 0 <= i < |fs| ==> LineOk(fs[i]) && IsFileLine(fs[i])
  {
    var fs := FileLinesOf(files);
    forall i | 0 <= i < |fs|
      ensures LineOk(fs[i]) && GoodSize(fs[i][2]) && IsFileLine(fs[i]) && FileOf(fs[i]) == files[i]
    {
      FileLineOk(files[i]);
    }
    assert FilesOf(fs) == files;
    assert Acceptable(fs);
  }

  /** What the lines of a package say. */
  lemma LinesSay(p: Package, head: seq<seq<string>>, fs: seq<seq<string>>)
    requires Publishable(p) && head == [["versao", p.version], ["pacote", p.name]] && fs == FileLinesOf(p.files)
    requires forall i :: 0 <= i < |fs| ==> IsFileLine(fs[i])
    ensures FileLines(head + fs) == fs
    ensures LastOf(head + fs, "versao", 63) == p.version && LastOf(head + fs, "pacote", 127) == p.name
  {
    HeadSays(p);
    FilesAreFileLines(fs);
    FileLinesJoin(head, fs);
    FilesSayNoKey(head, fs, "versao", 63);
    FilesSayNoKey(head, fs, "pacote", 127);
  }

  lemma LinesAreOk(p: Package)
    requires Publishable(p)
    ensures LinesFrom(Text(Lines(p)), 0) == Lines(p)
  {
    FilesComeBack(p.files);
    LinesAreFound("", Lines(p), Text(Lines(p)));
  }

  lemma PackageIsSaid(p: Package, lines: seq<seq<string>>, fs: seq<seq<string>>, r: Option<Package>)
    requires FileLines(lines) == fs && Acceptable(fs) && FilesOf(fs) == p.files && fs != [] && p.version != ""
    requires LastOf(lines, "versao", 63) == p.version && LastOf(lines, "pacote", 127) == p.name
    ensures Says(lines, r) <==> r == Some(p)
  {
  }

  /** A manifest that says a publishable package is accepted, and the package read off it is that one. */
  lemma ManifestIsReadBack(p: Package, r: Option<Package>)
    requires Publishable(p)
    ensures Says(LinesFrom(Text(Lines(p)), 0), r) <==> r == Some(p)
  {
    var fs := FileLinesOf(p.files);
    LinesAreOk(p);
    FilesComeBack(p.files);
    LinesSay(p, [["versao", p.version], ["pacote", p.name]], fs);
    PackageIsSaid(p, Lines(p), fs, r);
  }

  lemma TwoPlain(a: string, b: string)
    requires Plain(a) && Plain(b) && b != "" && b[|b| - 1] != '\r'
    ensures LineOk([a, b])
  {
  }

  /** Such packages exist: a binary with a plain name, of any size up to the limit. */
  lemma OneFileIsPublishable(file: string, name: string, ext: string, hash: string, size: nat)
    requires BinaryName(file, name, ext) && size <= MAX_FILE_SIZE
    requires |hash| == 64 && forall i :: 0 <= i < 64 ==> '0' <= hash[i] <= '9' || 'a' <= hash[i] <= 'f'
    ensures Publishable(Package("1.0", "n02", [PackageFile(file, hash, size, false)]))
  {
    PlainNameIsSafe(file, name, ext);
    TwoPlain("versao", "1.0");
    TwoPlain("pacote", "n02");
  }

  // ----- what does not matter -----

  /** A line may end with a carriage return. */
  lemma CarriageReturnDoesNotCount(line: string)
    requires line != "" ==> line[|line| - 1] != '\r'
    ensures Fields(line + "\r") == Fields(line)
  {
    assert (line + "\r")[..|line|] == line;
  }

  /** A line of a kind that the program does not know. */
  ghost predicate Unknown(f: seq<string>) {
    !(|f| == 4 && f[0] == "arquivo") && !(|f| == 2 && (f[0] == "versao" || f[0] == "pacote"))
  }

  lemma {:induction false} LastOfBehind(lines: seq<seq<string>>, f: seq<string>, after: seq<seq<string>>, key: string,
                                        max: nat)
    requires !(|f| == 2 && f[0] == key)
    ensures LastOf(lines + [f] + after, key, max) == LastOf(lines + after, key, max)
    decreases |after|
  {
    if after == [] {
      LastOfSnoc(lines, f, key, max);
      assert lines + [f] + after == lines + [f] && lines + after == lines;
    } else {
      var n := |after| - 1;
      LastOfBehind(lines, f, after[..n], key, max);
      LastOfSnoc(lines + [f] + after[..n], after[n], key, max);
      LastOfSnoc(lines + after[..n], after[n], key, max);
      assert lines + [f] + after == lines + [f] + after[..n] + [after[n]];
      assert lines + after == lines + after[..n] + [after[n]];
    }
  }

  /** Lines of other kinds, wherever they stand, do not matter. */
  lemma UnknownLinesDoNotMatter(before: seq<seq<string>>, f: seq<string>, after: seq<seq<string>>, r: Option<Package>)
    requires Unknown(f)
    ensures Says(before + [f] + after, r) <==> Says(before + after, r)
  {
    LastOfBehind(before, f, after, "versao", 63);
    LastOfBehind(before, f, after, "pacote", 127);
    FileLinesJoin(before, after);
    FileLinesJoin(before + [f], after);
    FileLinesSnoc(before, f);
    assert FileLines(before) + [] == FileLines(before);
  }
}
