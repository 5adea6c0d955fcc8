/** Include directives of sTeX sources (`replace_inputref_line`,
    `replace_inputref`, `get_recursive_stex`, `get_raw_stex_url` and the
    numbered note files of `save_content_to_file` in get_course_stex.py).
    An included file is fetched, saved as the next numbered note, and its
    directive line is replaced by a `File: [archive]{filename}` marker. */
module StexInputs {
  import opened Wrappers
  import opened Text
  import opened StexCleanup

  // ---------------------------------------------------------------------
  // Raw file addresses
  // ---------------------------------------------------------------------

  const RawHost := "https://gl.mathhub.info/"
  const RawPath := "/-/raw/main/source/"

  /** `get_raw_stex_url(archive, filename)`: the raw-file address of a source
      file of an archive, from which both parts can be read back. */
  function RawStexUrl(archive: string, filename: string): (url: string)
    ensures |url| == |RawHost| + |archive| + |RawPath| + |filename|
    ensures StartsWith(url, RawHost) && EndsWith(url, filename)
    ensures url[|RawHost|..|RawHost| + |archive|] == archive
    ensures url[|RawHost| + |archive|..|url| - |filename|] == RawPath
  {
    RawHost + archive + RawPath + filename
  }

  /** `get_raw_stex`: the HTTP GET of the raw-file address; `fetch` stands for
      the network. */
  function GetRawStex(fetch: string -> string, archive: string, filename: string): string
  {
    fetch(RawStexUrl(archive, filename))
  }

  // ---------------------------------------------------------------------
  // The three directive patterns, as a backtracking regular-expression
  // matcher anchored at the start of the line reads them
  // ---------------------------------------------------------------------

  /** What `(.*?)\}` captures at the start of `s`: the shortest newline-free
      text followed by a closing brace. */
  function UpToBrace(s: string): (r: Option<string>)
    ensures r.Some? ==>
      |r.value| < |s| && s[..|r.value|] == r.value && s[|r.value|] == '}'
      && '}' !in r.value && '\n' !in r.value
    ensures r.None? ==> forall i :: 0 <= i < |s| && s[i] == '}' ==> '\n' in s[..i]
  {
    if s == [] then None
    else if s[0] == '}' then Some([])
    else if s[0] == '\n' then None
    else
      match UpToBrace(s[1..])
      case Some(p) => Some([s[0]] + p)
      case None =>
        assert forall i :: 1 <= i < |s| ==> s[1..][..i - 1] == s[1..i];
        None
  }

  /** What `\{(.*?)\}` captures at the start of `s`. */
  function BracedArg(s: string): (r: Option<string>)
    ensures r.Some? ==> StartsWith(s, "{" + r.value + "}") && '}' !in r.value && '\n' !in r.value
  {
    if s != [] && s[0] == '{' then
      var r := UpToBrace(s[1..]);
      assert r.Some? ==> s[..|r.value| + 2] == "{" + r.value + "}";
      r
    else None
  }

  /** A braced argument is read back whole, whatever follows it. */
  lemma BracedArgOf(f: string, tail: string)
    requires '}' !in f && '\n' !in f
    ensures BracedArg("{" + f + "}" + tail) == Some(f)
  {
    var s := "{" + f + "}" + tail;
    var r := UpToBrace(s[1..]);
    assert s[1..] == f + "}" + tail;
    assert s[1..][|f|] == '}';
    assert s[1..][..|f|] == f;
  }

  /** Position `j` of `s` (the text after `[`) can end the archive group: a
      `]` there, followed by a braced argument. */
  predicate ArchiveCandidate(s: string, j: nat) {
    j < |s| && s[j] == ']' && BracedArg(s[j + 1..]).Some?
  }

  /** What `(.*?)\]\{(.*?)\}` captures at the start of `s`, trying archive
      lengths from `j` on: the lazy group grows one character at a time,
      cannot grow over a newline, and stops at the first `]` after which a
      braced argument follows. */
  function ScanArchive(s: string, j: nat): Option<(string, string)>
    requires j <= |s|
    decreases |s| - j
  {
    if j == |s| || s[j] == '\n' then None
    else if ArchiveCandidate(s, j) then Some((s[..j], BracedArg(s[j + 1..]).value))
    else ScanArchive(s, j + 1)
  }

  /** The scan returns the first newline-free candidate. */
  lemma {:induction false} ScanArchiveFirst(s: string, j: nat, c: nat)
    requires j <= c < |s| && '\n' !in s[j..c] && ArchiveCandidate(s, c)
    requires forall i :: j <= i < c ==> !ArchiveCandidate(s, i)
    ensures ScanArchive(s, j) == Some((s[..c], BracedArg(s[c + 1..]).value))
    decreases c - j
  {
    if j < c {
      assert s[j] == s[j..c][0];
      assert s[j + 1..c] == s[j..c][1..];
      ScanArchiveFirst(s, j + 1, c);
    }
  }

  /** Whatever the scan returns is the first newline-free candidate. */
  lemma ScanArchiveSound(s: string, j: nat)
    requires j <= |s| && ScanArchive(s, j).Some?
    ensures var a := ScanArchive(s, j).value.0;
      j <= |a| < |s| && a == s[..|a|] && '\n' !in s[j..|a|] && ArchiveCandidate(s, |a|)
      && ScanArchive(s, j).value.1 == BracedArg(s[|a| + 1..]).value
      && forall i :: j <= i < |a| ==> !ArchiveCandidate(s, i)
  {
    ScanArchiveFound(s, j);
    ScanArchiveNoNewline(s, j);
    ScanArchiveNoEarlier(s, j);
  }

  /** The scan returns a candidate at or after `j`. */
  lemma {:induction false} ScanArchiveFound(s: string, j: nat)
    requires j <= |s| && ScanArchive(s, j).Some?
    ensures var a := ScanArchive(s, j).value.0;
      j <= |a| < |s| && a == s[..|a|] && ArchiveCandidate(s, |a|)
      && ScanArchive(s, j).value.1 == BracedArg(s[|a| + 1..]).value
    decreases |s| - j
  {
    if !ArchiveCandidate(s, j) {
      ScanArchiveFound(s, j + 1);
    }
  }

  /** The lazy group does not grow over a newline. */
  lemma {:induction false} ScanArchiveNoNewline(s: string, j: nat)
    requires j <= |s| && ScanArchive(s, j).Some?
    ensures j <= |ScanArchive(s, j).value.0| <= |s| && '\n' !in s[j..|ScanArchive(s, j).value.0|]
    decreases |s| - j
  {
    ScanArchiveFound(s, j);
    if !ArchiveCandidate(s, j) {
      ScanArchiveNoNewline(s, j + 1);
      var a := ScanArchive(s, j + 1).value.0;
      assert s[j..|a|] == [s[j]] + s[j + 1..|a|];
    }
  }

  /** No earlier position is a candidate. */
  lemma {:induction false} ScanArchiveNoEarlier(s: string, j: nat)
    requires j <= |s| && ScanArchive(s, j).Some?
    ensures forall i :: j <= i < |ScanArchive(s, j).value.0| ==> !ArchiveCandidate(s, i)
    decreases |s| - j
  {
    if !ArchiveCandidate(s, j) {
      ScanArchiveNoEarlier(s, j + 1);
    }
  }

  /** What `\inputref\*?(?:\[(.*?)\])?\{(.*?)\}` captures. */
  datatype Directive = Directive(archive: Option<string>, filename: string)

  /** The text of a directive after the command name (and its star). */
  function Render(d: Directive): string {
    (if d.archive.Some? then "[" + d.archive.value + "]" else "") + "{" + d.filename + "}"
  }

  /** A directive whose parts a lazy match reads back whole. */
  predicate WellFormed(d: Directive) {
    '}' !in d.filename && '\n' !in d.filename
    && (d.archive.Some? ==> ']' !in d.archive.value && '\n' !in d.archive.value)
  }

  const Inputref := "\\inputref"
  const Libinput := "\\libinput"
  const Mhinput := "\\mhinput"

  /** `(?:\[(.*?)\])?\{(.*?)\}` at the start of `rest`: the optional group is
      tried first; when it fails no braced argument can follow, since the
      text then opens with `[`. */
  function DirectiveBody(rest: string): Option<Directive>
  {
    if StartsWith(rest, "[") then
      match ScanArchive(rest[1..], 0)
      case Some((a, f)) => Some(Directive(Some(a), f))
      case None => None
    else
      match BracedArg(rest)
      case Some(f) => Some(Directive(None, f))
      case None => None
  }

  /** `\*?`: the optional star after the command name. */
  function SkipStar(s: string): string {
    if StartsWith(s, "*") then s[1..] else s
  }

  /** The first pattern of `replace_inputref_line`. */
  function ParseInputref(line: string): (r: Option<Directive>)
    ensures r.Some? ==> StartsWith(line, Inputref)
  {
    if StartsWith(line, Inputref) then DirectiveBody(SkipStar(line[|Inputref|..])) else None
  }

  /** A parsed directive body opens the text it was parsed from. */
  lemma DirectiveBodySound(rest: string)
    requires DirectiveBody(rest).Some?
    ensures StartsWith(rest, Render(DirectiveBody(rest).value))
    ensures '}' !in DirectiveBody(rest).value.filename && '\n' !in DirectiveBody(rest).value.filename
    ensures DirectiveBody(rest).value.archive.Some? ==> '\n' !in DirectiveBody(rest).value.archive.value
  {
    if StartsWith(rest, "[") {
      var found := ScanArchive(rest[1..], 0).value;
      ArchivedBodySound(rest, found.0, found.1);
    }
  }

  /** A body with an archive group opens the text as `[A]{F}`. */
  lemma ArchivedBodySound(rest: string, a: string, f: string)
    requires StartsWith(rest, "[") && ScanArchive(rest[1..], 0) == Some((a, f))
    ensures StartsWith(rest, Render(Directive(Some(a), f)))
    ensures '\n' !in a && '}' !in f && '\n' !in f
  {
    ScanArchiveOpens(rest[1..]);
    assert rest == "[" + rest[1..];
    StartsWithAppend(rest, "[", a + ("]" + ("{" + f + "}")));
    assert "[" + (a + ("]" + ("{" + f + "}"))) == Render(Directive(Some(a), f));
  }

  /** The archive and file name the scan finds open the scanned text, as
      `A]{F}`, and hold no newline. */
  lemma ScanArchiveOpens(s: string)
    requires ScanArchive(s, 0).Some?
    ensures var a := ScanArchive(s, 0).value.0;
      var f := ScanArchive(s, 0).value.1;
      StartsWith(s, a + ("]" + ("{" + f + "}"))) && '\n' !in a && '}' !in f && '\n' !in f
  {
    ScanArchiveSound(s, 0);
    var a := ScanArchive(s, 0).value.0;
    var f := ScanArchive(s, 0).value.1;
    assert s[0..|a|] == a;
    assert StartsWith(s[|a|..], "]") by { assert s[|a|] == ']'; }
    assert s[|a|..][1..] == s[|a| + 1..];
    StartsWithAppend(s[|a|..], "]", "{" + f + "}");
    assert s[..|a|] == a;
    StartsWithAppend(s, a, "]" + ("{" + f + "}"));
  }

  /** A well-formed directive body is read back whole, whatever follows it. */
  lemma DirectiveBodyOf(d: Directive, tail: string)
    requires WellFormed(d)
    ensures DirectiveBody(Render(d) + tail) == Some(d)
  {
    if d.archive.Some? {
      ArchivedBodyOf(d.archive.value, d.filename, tail);
    } else {
      BracedArgOf(d.filename, tail);
      assert Render(d) + tail == "{" + d.filename + "}" + tail;
    }
  }

  /** The scan after `[` finds the archive `a` and the file name `f` of
      `[a]{f}`, whatever follows. */
  lemma ArchivedBodyOf(a: string, f: string, tail: string)
    requires ']' !in a && '\n' !in a && '}' !in f && '\n' !in f
    ensures DirectiveBody(Render(Directive(Some(a), f)) + tail) == Some(Directive(Some(a), f))
  {
    var rest := Render(Directive(Some(a), f)) + tail;
    assert rest[1..] == a + "]" + ("{" + f + "}" + tail);
    ScanArchiveOf(a, f, tail);
  }

  /** The scan reads `a]{f}` back whole, whatever follows. */
  lemma ScanArchiveOf(a: string, f: string, tail: string)
    requires ']' !in a && '\n' !in a && '}' !in f && '\n' !in f
    ensures ScanArchive(a + "]" + ("{" + f + "}" + tail), 0) == Some((a, f))
  {
    var s := a + "]" + ("{" + f + "}" + tail);
    BracedArgOf(f, tail);
    assert s[|a| + 1..] == "{" + f + "}" + tail;
    assert s[0..|a|] == a;
    forall i | 0 <= i < |a| ensures !ArchiveCandidate(s, i) {
      assert s[i] == a[i];
    }
    ScanArchiveFirst(s, 0, |a|);
  }

  /** A parsed `\inputref` directive opens the line, with or without a star. */
  lemma ParseInputrefSound(line: string)
    requires ParseInputref(line).Some?
    ensures var d := ParseInputref(line).value;
      (StartsWith(line, Inputref + Render(d)) || StartsWith(line, Inputref + "*" + Render(d)))
      && '}' !in d.filename && '\n' !in d.filename
      && (d.archive.Some? ==> '\n' !in d.archive.value)
  {
    var after := line[|Inputref|..];
    var rest := SkipStar(after);
    var d := ParseInputref(line).value;
    DirectiveBodySound(rest);
    if StartsWith(after, "*") {
      StartsWithAppend(after, "*", Render(d));
      StartsWithAppend(line, Inputref, "*" + Render(d));
      assert Inputref + ("*" + Render(d)) == Inputref + "*" + Render(d);
    } else {
      StartsWithAppend(line, Inputref, Render(d));
    }
  }

  /** A well-formed `\inputref` directive is read back whole, with or without
      its star and its archive, whatever follows it. */
  lemma ParseInputrefOf(star: bool, d: Directive, tail: string)
    requires WellFormed(d)
    ensures ParseInputref(Inputref + (if star then "*" else "") + Render(d) + tail) == Some(d)
  {
    var star' := if star then "*" else "";
    var line := Inputref + star' + Render(d) + tail;
    var rest := Render(d) + tail;
    assert line == Inputref + (star' + rest);
    assert line[..|Inputref|] == Inputref;
    assert line[|Inputref|..] == star' + rest;
    assert Render(d)[0] == if d.archive.Some? then '[' else '{';
    assert rest[0] != '*';
    if star {
      assert (star' + rest)[1..] == rest;
    } else {
      assert star' + rest == rest;
      assert !StartsWith(rest, "*");
    }
    DirectiveBodyOf(d, tail);
  }

  /** What `\libinput\{(.*?)\}` or `\mhinput\{(.*?)\}` captures. */
  function CommandArg(line: string, command: string): (r: Option<string>)
    ensures r.Some? ==>
      StartsWith(line, command + "{" + r.value + "}") && '}' !in r.value && '\n' !in r.value
  {
    if StartsWith(line, command) then
      var r := BracedArg(line[|command|..]);
      assert r.Some? ==> line[..|command| + |r.value| + 2] == command + "{" + r.value + "}";
      r
    else None
  }

  // ---------------------------------------------------------------------
  // Rewriting a line
  // ---------------------------------------------------------------------

  /** Which of the three branches of `replace_inputref_line` matched. */
  datatype Command = InputrefCommand | LibinputCommand | MhinputCommand

  /** A file to fetch and save, and the marker that replaces its directive. */
  datatype Inclusion = Inclusion(command: Command, archive: string, filename: string)

  /** The branch choice of `replace_inputref_line`: the three patterns are
      tried in order; only `\inputref` may name its own archive. */
  function FindInclusion(fallback: string, line: string): (r: Option<Inclusion>)
    ensures r.Some? && r.value.command == InputrefCommand ==> StartsWith(line, Inputref)
    ensures r.Some? && r.value.command == LibinputCommand ==>
      StartsWith(line, Libinput + "{" + r.value.filename + "}") && r.value.archive == fallback
    ensures r.Some? && r.value.command == MhinputCommand ==>
      StartsWith(line, Mhinput + "{" + r.value.filename + "}") && r.value.archive == fallback
    ensures r.Some? ==> '\n' !in r.value.filename
  {
    match ParseInputref(line)
    case Some(d) =>
      ParseInputrefSound(line);
      Some(Inclusion(InputrefCommand, d.archive.GetOr(fallback), d.filename))
    case None =>
      match CommandArg(line, Libinput)
      case Some(f) => Some(Inclusion(LibinputCommand, fallback, f))
      case None =>
        match CommandArg(line, Mhinput)
        case Some(f) => Some(Inclusion(MhinputCommand, fallback, f))
        case None => None
  }

  /** The line that replaces an included file's directive. */
  function Marker(inc: Inclusion): string {
    "File: [" + inc.archive + "]{" + inc.filename + "}\n"
  }

  /** What `replace_inputref_line` returns. */
  function RewriteLine(fallback: string, line: string): string {
    match FindInclusion(fallback, line)
    case Some(inc) => Marker(inc)
    case None => line
  }

  /** A line comes back unchanged exactly when it is not an include directive. */
  lemma RewriteLineUnchanged(fallback: string, line: string)
    ensures RewriteLine(fallback, line) == line <==> FindInclusion(fallback, line).None?
  {
    if FindInclusion(fallback, line).Some? {
      var inc := FindInclusion(fallback, line).value;
      assert line[0] == '\\';
      assert Marker(inc)[0] == 'F';
    }
  }

  /** `\inputref*?[A]{F}` becomes `File: [A]{F}`; without `[A]` the fallback
      archive is used. */
  lemma RewriteInputref(fallback: string, star: bool, d: Directive, tail: string)
    requires WellFormed(d)
    ensures RewriteLine(fallback, Inputref + (if star then "*" else "") + Render(d) + tail)
      == "File: [" + d.archive.GetOr(fallback) + "]{" + d.filename + "}\n"
  {
    ParseInputrefOf(star, d, tail);
  }

  /** `\libinput{F}` and `\mhinput{F}` become `File: [fallback]{F}`. */
  lemma RewriteLibinputMhinput(fallback: string, libinput: bool, f: string, tail: string)
    requires '}' !in f && '\n' !in f
    ensures var command := if libinput then Libinput else Mhinput;
      RewriteLine(fallback, command + "{" + f + "}" + tail) == "File: [" + fallback + "]{" + f + "}\n"
  {
    var command := if libinput then Libinput else Mhinput;
    var line := command + "{" + f + "}" + tail;
    CommandArgOf(command, f, tail);
    assert line[1] == command[1];
    assert !StartsWith(line, Inputref);
    if !libinput {
      assert !StartsWith(line, Libinput);
    }
  }

  /** A command's braced argument is read back whole, whatever follows. */
  lemma CommandArgOf(command: string, f: string, tail: string)
    requires '}' !in f && '\n' !in f
    ensures CommandArg(command + "{" + f + "}" + tail, command) == Some(f)
  {
    var line := command + "{" + f + "}" + tail;
    assert line[|command|..] == "{" + f + "}" + tail;
    BracedArgOf(f, tail);
  }

  /** `replace_inputref_line` over every line, in order. */
  function RewriteLines(fallback: string, lines: seq<string>): (out: seq<string>)
    ensures |out| == |lines|
  {
    seq(|lines|, i requires 0 <= i < |lines| => RewriteLine(fallback, lines[i]))
  }

  /** After cleanup, no line reaches the `\libinput` branch: `libinput` is a
      junk macro, so its lines were dropped before any rewriting. */
  lemma LibinputUnreachable(fallback: string, text: string)
    ensures var lines := Split(CleanupStex(text));
      forall k :: 0 <= k < |lines| ==>
        FindInclusion(fallback, lines[k]).None? || FindInclusion(fallback, lines[k]).value.command != LibinputCommand
  {
    CleanupStexLines(text);
    var lines := Split(CleanupStex(text));
    forall k | 0 <= k < |lines|
      ensures FindInclusion(fallback, lines[k]).None? || FindInclusion(fallback, lines[k]).value.command != LibinputCommand
    {
      CleanLineNotLibinput(fallback, lines[k]);
    }
  }

  /** A clean line is never a `\libinput` directive. */
  lemma CleanLineNotLibinput(fallback: string, line: string)
    requires IsCleanLine(line)
    ensures FindInclusion(fallback, line).None? || FindInclusion(fallback, line).value.command != LibinputCommand
  {
    if FindInclusion(fallback, line).Some? && FindInclusion(fallback, line).value.command == LibinputCommand {
      LibinputLineIsJunk(fallback, line);
    }
  }

  /** A line read as a `\libinput` directive opens with a junk macro. */
  lemma LibinputLineIsJunk(fallback: string, line: string)
    requires FindInclusion(fallback, line).Some?
    requires FindInclusion(fallback, line).value.command == LibinputCommand
    ensures IsJunk(line)
  {
    assert JunkTags[3] == "libinput";
    assert JunkTags[3] in JunkTags && StartsWith(line, "\\" + JunkTags[3]);
  }

  // ---------------------------------------------------------------------
  // Numbered note files
  // ---------------------------------------------------------------------

  /** The name of the n-th note: `str(n).zfill(2) + ".tex"`. */
  function NoteFileName(n: nat): string
  {
    ZFill(NatToDecimal(n), 2) + ".tex"
  }

  /** A note name is n in decimal, zero-padded to at least two digits, then
      `.tex`; below 100 it has exactly two digits. */
  lemma NoteFileNameShape(n: nat)
    ensures var name := NoteFileName(n);
      6 <= |name| && EndsWith(name, ".tex")
      && AllDigits(name[..|name| - 4]) && DecimalValue(name[..|name| - 4]) == n
      && (n < 100 ==> |name| == 6)
  {
    var digits := NatToDecimal(n);
    NatToDecimalSound(n);
    var padded := ZFill(digits, 2);
    assert padded == Zeros(|padded| - |digits|) + digits;
    DecimalValueLeadingZeros(|padded| - |digits|, digits);
    assert (padded + ".tex")[..|padded|] == padded;
  }

  /** Different notes get different names. */
  lemma NoteFileNameInjective(i: nat, j: nat)
    requires NoteFileName(i) == NoteFileName(j)
    ensures i == j
  {
    NoteFileNameShape(i);
    NoteFileNameShape(j);
  }

  /** The `.tex` files of a directory. */
  function TexFiles(files: map<string, string>): set<string> {
    set name | name in files && EndsWith(name, ".tex")
  }

  /** The text `save_content_to_file` writes: three header lines, a blank
      line, then the content. */
  function NoteText(courseId: string, archive: string, filename: string, content: string): string {
    "CourseId: " + courseId + "\n" + "Archive: " + archive + "\n" + "Filepath: " + filename + "\n\n" + content
  }

  /** The directory after `save_content_to_file`: the note is written under
      the name numbered one past the count of `.tex` files already there. */
  function SaveNote(files: map<string, string>, courseId: string, archive: string,
                    filename: string, content: string): map<string, string>
  {
    files[NoteFileName(|TexFiles(files)| + 1) := NoteText(courseId, archive, filename, content)]
  }

  /** The names of the first k notes. */
  function NoteNames(k: nat): set<string> {
    if k == 0 then {} else NoteNames(k - 1) + {NoteFileName(k)}
  }

  /** Each of the notes numbered 1 to k is among the first k names. */
  lemma {:induction false} NoteNamesHas(i: nat, k: nat)
    requires 1 <= i <= k
    ensures NoteFileName(i) in NoteNames(k)
  {
    assert NoteNames(k) == NoteNames(k - 1) + {NoteFileName(k)};
    if i < k {
      NoteNamesHas(i, k - 1);
    }
  }

  /** No later note is among the first k names. */
  lemma {:induction false} NoteNamesLacks(i: nat, k: nat)
    requires k < i
    ensures NoteFileName(i) !in NoteNames(k)
  {
    if k > 0 {
      NoteNamesLacks(i, k - 1);
      if NoteFileName(i) == NoteFileName(k) {
        NoteFileNameInjective(i, k);
      }
    }
  }

  /** The first k notes have k distinct names. */
  lemma {:induction false} NoteNamesCount(k: nat)
    ensures |NoteNames(k)| == k
  {
    if k > 0 {
      NoteNamesCount(k - 1);
      NoteNamesLacks(k, k - 1);
    }
  }

  /** The `.tex` files of the directory are exactly the notes numbered 1 to k. */
  ghost predicate Numbered(files: map<string, string>, k: nat) {
    TexFiles(files) == NoteNames(k)
  }

  /** Every file of `before` is still in `after`, with the same text. */
  ghost predicate Keeps(before: map<string, string>, after: map<string, string>) {
    forall name | name in before :: name in after && after[name] == before[name]
  }

  /** When the directory holds exactly the first k notes, the next save writes
      a new file, the (k+1)-th, and overwrites nothing. */
  lemma SaveNoteNumbering(files: map<string, string>, k: nat, courseId: string, archive: string,
                          filename: string, content: string)
    requires Numbered(files, k)
    ensures NoteFileName(k + 1) !in files
    ensures SaveNote(files, courseId, archive, filename, content)
      == files[NoteFileName(k + 1) := NoteText(courseId, archive, filename, content)]
    ensures Numbered(SaveNote(files, courseId, archive, filename, content), k + 1)
    ensures Keeps(files, SaveNote(files, courseId, archive, filename, content))
  {
    NextNoteFree(files, k);
    NumberedInsert(files, k, NoteText(courseId, archive, filename, content));
    KeepsInsert(files, NoteFileName(k + 1), NoteText(courseId, archive, filename, content));
  }

  /** When the `.tex` files are not exactly the first k notes, the name one
      past their count may already be taken, and the save then replaces that
      file: a directory holding only `02.tex` gets its next note written to
      `02.tex` again. */
  lemma SaveNoteOverwrites(previous: string, courseId: string, archive: string, filename: string, content: string)
    ensures var files := map["02.tex" := previous];
      var after := SaveNote(files, courseId, archive, filename, content);
      NoteFileName(|TexFiles(files)| + 1) == "02.tex"
      && after.Keys == files.Keys
      && after["02.tex"] == NoteText(courseId, archive, filename, content)
  {
    var files := map["02.tex" := previous];
    assert EndsWith("02.tex", ".tex");
    assert TexFiles(files) == {"02.tex"};
    assert NatToDecimal(2) == "2";
    assert ZFill("2", 2) == "02";
  }

  /** Adding a new file keeps every file there. */
  lemma KeepsInsert(files: map<string, string>, name: string, text: string)
    requires name !in files
    ensures Keeps(files, files[name := text])
  {
  }

  /** A directory numbered 1 to k holds k `.tex` files and not the (k+1)-th note. */
  lemma NextNoteFree(files: map<string, string>, k: nat)
    requires Numbered(files, k)
    ensures |TexFiles(files)| == k && NoteFileName(k + 1) !in files
  {
    NoteNamesCount(k);
    NoteNamesLacks(k + 1, k);
    NoteFileNameShape(k + 1);
    assert NoteFileName(k + 1) !in TexFiles(files);
  }

  /** Writing the (k+1)-th note into a directory numbered 1 to k numbers it 1 to k+1. */
  lemma NumberedInsert(files: map<string, string>, k: nat, text: string)
    requires Numbered(files, k)
    ensures Numbered(files[NoteFileName(k + 1) := text], k + 1)
  {
    NoteFileNameShape(k + 1);
    TexFilesInsert(files, NoteFileName(k + 1), text);
    assert NoteNames(k + 1) == NoteNames(k) + {NoteFileName(k + 1)};
  }

  /** Writing a `.tex` file adds its name to the `.tex` files. */
  lemma TexFilesInsert(files: map<string, string>, name: string, text: string)
    requires EndsWith(name, ".tex")
    ensures TexFiles(files[name := text]) == TexFiles(files) + {name}
  {
  }

  // ---------------------------------------------------------------------
  // Effects of rewriting, as values
  // ---------------------------------------------------------------------

  /** The include directive of each line, in order. */
  function Findings(fallback: string, lines: seq<string>): (found: seq<Option<Inclusion>>)
    ensures |found| == |lines|
  {
    seq(|lines|, i requires 0 <= i < |lines| => FindInclusion(fallback, lines[i]))
  }

  /** The directory after `replace_inputref_line` handled one line with the
      given directive: the included file is fetched through `nested` (the
      recursive fetch) and saved as the next note. */
  function SaveFound(files: map<string, string>, nested: (string, string) -> string,
                     courseId: string, found: Option<Inclusion>): map<string, string>
  {
    match found
    case Some(inc) =>
      SaveNote(files, courseId, inc.archive, inc.filename, nested(inc.archive, inc.filename + ".tex"))
    case None => files
  }

  /** The directory after `replace_inputref` handled the directives in order. */
  function SaveAll(files: map<string, string>, nested: (string, string) -> string,
                   courseId: string, found: seq<Option<Inclusion>>): map<string, string>
  {
    if found == [] then files
    else SaveFound(SaveAll(files, nested, courseId, found[..|found| - 1]), nested, courseId, found[|found| - 1])
  }

  /** How many of the lines are include directives. */
  function DirectiveCount(found: seq<Option<Inclusion>>): (n: nat)
    ensures n <= |found|
  {
    if found == [] then 0
    else DirectiveCount(found[..|found| - 1]) + (if found[|found| - 1].Some? then 1 else 0)
  }

  /** Handling one line of a directory numbered 1 to k saves a new note, the
      (k+1)-th, if the line is a directive, and keeps every file. */
  lemma SaveFoundNumbering(files: map<string, string>, k: nat, nested: (string, string) -> string,
                           courseId: string, found: Option<Inclusion>)
    requires Numbered(files, k)
    ensures Numbered(SaveFound(files, nested, courseId, found), if found.Some? then k + 1 else k)
    ensures Keeps(files, SaveFound(files, nested, courseId, found))
  {
    if found.Some? {
      var inc := found.value;
      SaveNoteNumbering(files, k, courseId, inc.archive, inc.filename, nested(inc.archive, inc.filename + ".tex"));
    }
  }

  /** Handling the lines of a directory numbered 1 to k saves one new note per
      directive, numbered on from k, and keeps every file. */
  lemma SaveAllNumbering(files: map<string, string>, k: nat,
      nested: (string, string) -> string, courseId: string, found: seq<Option<Inclusion>>)
    requires Numbered(files, k)
    ensures Numbered(SaveAll(files, nested, courseId, found), k + DirectiveCount(found))
    ensures Keeps(files, SaveAll(files, nested, courseId, found))
  {
    SaveAllNumbered(files, k, nested, courseId, found);
    SaveAllKeeps(files, k, nested, courseId, found);
  }

  /** The numbering part of `SaveAllNumbering`. */
  lemma {:induction false} SaveAllNumbered(files: map<string, string>, k: nat,
      nested: (string, string) -> string, courseId: string, found: seq<Option<Inclusion>>)
    requires Numbered(files, k)
    ensures Numbered(SaveAll(files, nested, courseId, found), k + DirectiveCount(found))
    decreases |found|
  {
    if found != [] {
      var init := found[..|found| - 1];
      SaveAllNumbered(files, k, nested, courseId, init);
      SaveFoundNumbering(SaveAll(files, nested, courseId, init), k + DirectiveCount(init),
                         nested, courseId, found[|found| - 1]);
    }
  }

  /** The keeping part of `SaveAllNumbering`. */
  lemma {:induction false} SaveAllKeeps(files: map<string, string>, k: nat,
      nested: (string, string) -> string, courseId: string, found: seq<Option<Inclusion>>)
    requires Numbered(files, k)
    ensures Keeps(files, SaveAll(files, nested, courseId, found))
    decreases |found|
  {
    if found != [] {
      var init := found[..|found| - 1];
      var before := SaveAll(files, nested, courseId, init);
      SaveAllKeeps(files, k, nested, courseId, init);
      SaveAllNumbered(files, k, nested, courseId, init);
      SaveFoundNumbering(before, k + DirectiveCount(init), nested, courseId, found[|found| - 1]);
      KeepsTransitive(files, before, SaveAll(files, nested, courseId, found));
    }
  }

  /** Keeping every file composes. */
  lemma KeepsTransitive(a: map<string, string>, b: map<string, string>, c: map<string, string>)
    requires Keeps(a, b) && Keeps(b, c)
    ensures Keeps(a, c)
  {
  }

  /** Handling one more line extends the rewritten lines by its rewriting and
      the saving by its directive. */
  lemma LinesSnoc(nested: (string, string) -> string, fallback: string, courseId: string,
                  files: map<string, string>, lines: seq<string>, i: nat)
    requires i < |lines|
    ensures RewriteLines(fallback, lines[..i + 1]) == RewriteLines(fallback, lines[..i]) + [RewriteLine(fallback, lines[i])]
    ensures SaveAll(files, nested, courseId, Findings(fallback, lines[..i + 1]))
      == SaveFound(SaveAll(files, nested, courseId, Findings(fallback, lines[..i])), nested, courseId,
                   FindInclusion(fallback, lines[i]))
  {
    assert lines[..i + 1] == lines[..i] + [lines[i]];
    FindingsSnoc(fallback, lines[..i], lines[i]);
    SaveAllSnoc(files, nested, courseId, Findings(fallback, lines[..i]), FindInclusion(fallback, lines[i]));
  }

  /** One more line, one more finding. */
  lemma FindingsSnoc(fallback: string, lines: seq<string>, line: string)
    ensures Findings(fallback, lines + [line]) == Findings(fallback, lines) + [FindInclusion(fallback, line)]
  {
  }

  /** One more finding, one more save step at the end. */
  lemma SaveAllSnoc(files: map<string, string>, nested: (string, string) -> string, courseId: string,
                    found: seq<Option<Inclusion>>, last: Option<Inclusion>)
    ensures SaveAll(files, nested, courseId, found + [last])
      == SaveFound(SaveAll(files, nested, courseId, found), nested, courseId, last)
  {
    assert (found + [last])[..|found|] == found;
  }

  // ---------------------------------------------------------------------
  // The course-notes directory and the rewriting operations
  // ---------------------------------------------------------------------

  /** The `course_notes` directory the notes are saved to. */
  class CourseNotes {
    /** File name -> file text. */
    var files: map<string, string>

    constructor (files: map<string, string>)
      ensures this.files == files
    {
      this.files := files;
    }

    /** `save_content_to_file`: write the note numbered one past the count of
        `.tex` files present. */
    method SaveContentToFile(content: string, archive: string, filename: string, courseId: string)
      modifies this
      ensures files == SaveNote(old(files), courseId, archive, filename, content)
    {
      var existing := TexFiles(files);
      var fileNumber := |existing| + 1;
      files := files[NoteFileName(fileNumber) := NoteText(courseId, archive, filename, content)];
      assert files == SaveNote(old(files), courseId, archive, filename, content);
    }

    /** `replace_inputref_line`: the three patterns in order; a match is
        fetched through `nested`, saved, and replaced by its marker. */
    method ReplaceInputrefLine(nested: (string, string) -> string, fallback: string,
                               line: string, courseId: string) returns (r: string)
      modifies this
      ensures r == RewriteLine(fallback, line)
      ensures files == SaveFound(old(files), nested, courseId, FindInclusion(fallback, line))
    {
      var directive := ParseInputref(line);
      if directive.Some? {
        var archive := directive.value.archive.GetOr(fallback);
        var filename := directive.value.filename;
        var content := nested(archive, filename + ".tex");
        SaveContentToFile(content, archive, filename, courseId);
        return "File: [" + archive + "]{" + filename + "}\n";
      }
      var libinput := CommandArg(line, Libinput);
      if libinput.Some? {
        var filename := libinput.value;
        var content := nested(fallback, filename + ".tex");
        SaveContentToFile(content, fallback, filename, courseId);
        return "File: [" + fallback + "]{" + filename + "}\n";
      }
      var mhinput := CommandArg(line, Mhinput);
      if mhinput.Some? {
        var filename := mhinput.value;
        var content := nested(fallback, filename + ".tex");
        SaveContentToFile(content, fallback, filename, courseId);
        return "File: [" + fallback + "]{" + filename + "}\n";
      }
      return line;
    }

    /** `replace_inputref`: every line rewritten independently and in order,
        as many lines joined as were split. */
    method ReplaceInputref(nested: (string, string) -> string, archive: string,
                           text: string, courseId: string) returns (r: string)
      modifies this
      ensures r == Join(RewriteLines(archive, Split(text)))
      ensures files == SaveAll(old(files), nested, courseId, Findings(archive, Split(text)))
    {
      var lines := Split(text);
      var processed: seq<string> := [];
      var i := 0;
      while i < |lines|
        invariant 0 <= i <= |lines|
        invariant processed == RewriteLines(archive, lines[..i])
        invariant files == SaveAll(old(files), nested, courseId, Findings(archive, lines[..i]))
      {
        var out := ReplaceInputrefLine(nested, archive, lines[i], courseId);
        LinesSnoc(nested, archive, courseId, old(files), lines, i);
        processed := processed + [out];
        i := i + 1;
      }
      assert lines[..i] == lines;
      r := Join(processed);
    }

    /** `get_recursive_stex`, one level deep: fetch the raw file, clean it,
        rewrite its directives; `nested` stands for the deeper levels. */
    method GetRecursiveStex(fetch: string -> string, nested: (string, string) -> string,
                            archive: string, filename: string, courseId: string) returns (r: string)
      modifies this
      ensures var lines := Split(CleanupStex(GetRawStex(fetch, archive, filename)));
        r == Join(RewriteLines(archive, lines))
        && files == SaveAll(old(files), nested, courseId, Findings(archive, lines))
    {
      var stex := CleanupStex(GetRawStex(fetch, archive, filename));
      r := ReplaceInputref(nested, archive, stex, courseId);
    }
  }
}
