/** The section extractor of cfg.go (ReadFile, cfg.go:256-348): it skips to the
    header of one section, then runs Load's character machine without the `#`
    and header branches, collecting key -> values until a `[` ends the section. */
module Extract {
  import opened Strings
  import opened Syntax
  import opened Files

  /** ReadFile's variables: the lexer state and the map filled so far. */
  datatype ReadState = ReadState(lx: Lexer, out: map<string, seq<string>>)

  /** What one character does: go on with the next character or the next line,
      stop at the `[` that opens the next section, or fail with a syntax error
      (the map filled so far comes back beside it). */
  datatype ReadStep =
    | Continue(st: ReadState)
    | NextLine(st: ReadState)
    | Stop(out: map<string, seq<string>>)
    | Fail(out: map<string, seq<string>>, line: nat)

  /** ReadFile's outcome: the section's keys, or a syntax error at a line. */
  datatype ReadResult =
    | Read(out: map<string, seq<string>>)
    | ReadFailed(out: map<string, seq<string>>, line: nat)

  const ReadStart := ReadState(Lexer(NoFlags, [], [], [], 0, 0), map[])

  function Lift(st: ReadState, r: Lexed): ReadStep {
    match r
    case Lexed(lx) => Continue(st.(lx := lx))
    case LexError(n) => Fail(st.out, n)
  }

  /** ReadFile's switch, for character i of a line of the section. A `#` is an
      ordinary character here, and a committed value leaves HEADER set. */
  function ReadChar(st: ReadState, txt: string, i: nat): ReadStep
    requires i < |txt|
  {
    var lx, ch, atEnd := st.lx, txt[i], i == |txt| - 1;
    if lx.flag.escape then Lift(st, Escaped(lx, ch, atEnd))
    else match ch
      case '=' => Lift(st, Assign(lx))
      case ',' => Lift(st, Separate(lx))
      case '\n' =>
        if !lx.flag.key then Fail(st.out, lx.line)
        else if lx.flag.comma then Continue(st.(lx := lx.(flag := lx.flag.(comma := false))))
        else
          Continue(ReadState(lx.(flag := lx.flag.(key := false), buf := [], val := [], last := lx.line),
                             st.out[lx.key := AddVal(lx.buf, lx.val)]))
      case '[' => if lx.flag.key then Fail(st.out, lx.last) else Stop(st.out)
      case '\\' => Lift(st, Backslash(lx, atEnd))
      case _ => Lift(st, Ordinary(lx, ch, atEnd))
  }

  /** The rest of a line from character i on; never yields Continue. */
  function ReadLine(st: ReadState, txt: string, i: nat): (r: ReadStep)
    requires i <= |txt|
    ensures !r.Continue?
    decreases |txt| - i
  {
    if i == |txt| then NextLine(st)
    else match ReadChar(st, txt, i)
      case Continue(st') => ReadLine(st', txt, i + 1)
      case r => r
  }

  /** The remaining lines, for the (lower-cased) section. Before its header only
      lines holding a bracket, an ampersand or a blank are looked at, and only
      the header itself has an effect. The end of the file ends the section even
      with a key still open. */
  function ReadLines(st: ReadState, section: string, lines: seq<string>): ReadResult
    decreases |lines|
  {
    if lines == [] then Read(st.out)
    else
      var st1 := st.(lx := st.lx.(line := st.lx.line + 1));
      var txt := lines[0] + "\n";
      if (|txt| > 1 && txt[0] == '#') || |txt| == 1 then ReadLines(st1, section, lines[1..])
      else if !st1.lx.flag.header then
        if !ContainsAny(txt, "[ & ]") then ReadLines(st1, section, lines[1..])
        else if HasPrefix(Lower(txt), "[" + section + "]") then
          ReadLines(st1.(lx := st1.lx.(flag := st1.lx.flag.(header := true))), section, lines[1..])
        else ReadLines(st1, section, lines[1..])
      else match ReadLine(st1, txt, 0)
        case NextLine(st2) => ReadLines(st2, section, lines[1..])
        case Stop(out) => Read(out)
        case Fail(out, n) => ReadFailed(out, n)
        case Continue(_) => assert false; Read(map[])
  }

  /** What ReadFile makes of a file's lines for a section. */
  function ReadSpec(lines: seq<string>, section: string): ReadResult {
    ReadLines(ReadStart, Lower(section), lines)
  }

  /** ReadFile: the loops over lines and characters; computes what ReadSpec says.
      A file that does not open yields a nil (here empty) map and the error. */
  method ReadFile(fs: FileSystem, file: string, section: string) returns (out: map<string, seq<string>>, err: Option<CfgError>)
    ensures file !in fs.files ==> out == map[] && err == Some(IoError(file))
    ensures file in fs.files ==>
      match ReadSpec(fs.files[file], section)
      case Read(m) => err == None && out == m
      case ReadFailed(m, n) => err == Some(SyntaxError(file, n)) && out == m
  {
    var section := Lower(section);
    if file !in fs.files {
      return map[], Some(IoError(file));
    }
    var lines := fs.files[file];
    var flag := NoFlags;
    var line: nat, last: nat := 0, 0;
    var buf: string := [];
    var key: string := [];
    var val: seq<string> := [];
    out := map[];

    var k := 0;
    while k < |lines|
      invariant k <= |lines|
      invariant ReadLines(ReadState(Lexer(flag, buf, val, key, line, last), out), section, lines[k..])
                == ReadLines(ReadStart, section, lines)
    {
      assert lines[k..][1..] == lines[k + 1..];
      var txt := lines[k] + "\n";
      k := k + 1;
      line := line + 1;
      var l := |txt|;

      if (l > 1 && txt[0] == '#') || l == 1 {
        continue;
      }

      if !flag.header {
        // skip to the section's header only
        if l > 1 {
          if !ContainsAny(txt, "[ & ]") {
            continue;
          }
        } else {
          continue;
        }
        var lower := Lower(txt);
        if HasPrefix(lower, "[" + section + "]") {
          flag := flag.(header := true);
        }
      } else {
        ghost var first := ReadState(Lexer(flag, buf, val, key, line, last), out);
        for i := 0 to l
          invariant ReadLine(first, txt, 0) == ReadLine(ReadState(Lexer(flag, buf, val, key, line, last), out), txt, i)
        {
          var ch := txt[i];
          if flag.escape {
            if i == l - 1 && |buf| != 0 {
              return out, Some(SyntaxError(file, line));
            }
            buf := buf + [ch];
            flag := flag.(escape := false);
            continue;
          }
          match ch {
          case '=' =>
            if flag.key {
              return out, Some(SyntaxError(file, line));
            }
            flag := flag.(key := true);
            key := SetKey(buf);
            buf := [];
            last := line;
          case ',' =>
            if !flag.key {
              return out, Some(SyntaxError(file, line));
            }
            val := AddVal(buf, val);
            buf := [];
            last := line;
            flag := flag.(comma := true);
          case '\n' =>
            if !flag.key {
              return out, Some(SyntaxError(file, line));
            }
            if flag.comma {
              flag := flag.(comma := false);
              continue;
            }
            flag := flag.(key := false);
            val := AddVal(buf, val);
            buf := [];
            out := out[key := val];
            val := [];
            last := line;
          case '[' =>
            if flag.key {
              return out, Some(SyntaxError(file, last));
            }
            return out, None;
          case _ =>
            if ch == '\\' {
              // `case '\\'` sets ESCAPE and falls through to the default branch
              flag := flag.(escape := true);
            }
            if |buf| == 0 && (ch == ' ' || ch == '\t') {
              continue;
            }
            flag := flag.(comma := false);
            if i == l - 1 && |buf| != 0 {
              return out, Some(SyntaxError(file, line));
            }
            buf := buf + [ch];
          }
        }
      }
    }
    return out, None;
  }
}
