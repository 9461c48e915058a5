/** The full-file parser of cfg.go (Load, cfg.go:159-253) as a specification:
    a state machine over the characters of each line, each line being the
    scanned text plus the newline the scanner removed. Cfg.Load runs the same
    machine with loops and is proved to compute LoadSpec. */
module Parser {
  import opened Strings
  import opened Syntax

  /** Load's variables: the lexer state, the current section and the store. */
  datatype LoadState = LoadState(lx: Lexer, section: string, store: Sections)

  /** What one character does: go on with the next character, go on with the
      next line (`continue scanLoop`), fail with a syntax error (Go returns the
      store filled so far beside it), or panic. */
  datatype LineStep =
    | Continue(st: LoadState)
    | NextLine(st: LoadState)
    | Fail(store: Sections, line: nat)
    | Abort

  /** Load's outcome: the store, a syntax error at a line (with the store filled
      so far), or the run-time panic of a write into a missing section map. */
  datatype LoadResult =
    | Loaded(store: Sections)
    | Failed(store: Sections, line: nat)
    | Aborted

  const Start := LoadState(Lexer(NoFlags, [], [], [], 0, 0), [], map[])

  function Lift(st: LoadState, r: Lexed): LineStep {
    match r
    case Lexed(lx) => Continue(st.(lx := lx))
    case LexError(n) => Fail(st.store, n)
  }

  /** Load's switch, for character i of the line txt. */
  function LoadChar(st: LoadState, txt: string, i: nat): LineStep
    requires i < |txt|
  {
    var lx, ch, atEnd := st.lx, txt[i], i == |txt| - 1;
    if lx.flag.escape then Lift(st, Escaped(lx, ch, atEnd))
    else match ch
      case '[' =>
        if lx.flag.key then Fail(st.store, lx.last)
        else if |txt| > 2 && ContainsAny(txt, "[ & ]") then
          var section := Lower(txt[1..|txt| - 2]);
          NextLine(LoadState(lx.(flag := lx.flag.(header := true), last := lx.line), section, st.store[section := map[]]))
        else Fail(st.store, lx.line)
      case '#' => NextLine(st)
      case '=' => Lift(st, Assign(lx))
      case ',' => Lift(st, Separate(lx))
      case '\n' =>
        if !lx.flag.key then Fail(st.store, lx.line)
        else if lx.flag.comma then Continue(st.(lx := lx.(flag := lx.flag.(comma := false))))
        else if st.section !in st.store then Abort
        else
          var values := AddVal(lx.buf, lx.val);
          var keys := st.store[st.section][lx.key := values];
          NextLine(LoadState(lx.(flag := lx.flag.(header := false, key := false), buf := [], val := [], last := lx.line),
                             st.section, st.store[st.section := keys]))
      case '\\' => Lift(st, Backslash(lx, atEnd))
      case _ => Lift(st, Ordinary(lx, ch, atEnd))
  }

  /** The rest of a line from character i on; never yields Continue. */
  function LoadLine(st: LoadState, txt: string, i: nat): (r: LineStep)
    requires i <= |txt|
    ensures !r.Continue?
    decreases |txt| - i
  {
    if i == |txt| then NextLine(st)
    else match LoadChar(st, txt, i)
      case Continue(st') => LoadLine(st', txt, i + 1)
      case r => r
  }

  /** The remaining lines; `line` counts every scanned line, empty ones too. */
  function LoadLines(st: LoadState, lines: seq<string>): LoadResult
    decreases |lines|
  {
    if lines == [] then
      if st.lx.flag.key then Failed(st.store, st.lx.last) else Loaded(st.store)
    else
      var st1 := st.(lx := st.lx.(line := st.lx.line + 1));
      var txt := lines[0] + "\n";
      if |txt| < 2 then LoadLines(st1, lines[1..])
      else match LoadLine(st1, txt, 0)
        case NextLine(st2) => LoadLines(st2, lines[1..])
        case Fail(store, n) => Failed(store, n)
        case _ => Aborted
  }

  /** What Load makes of a file's lines. */
  function LoadSpec(lines: seq<string>): LoadResult {
    LoadLines(Start, lines)
  }
}
