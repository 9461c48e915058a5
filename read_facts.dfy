/** What ReadFile (cfg.go:256-348) makes of a file: it looks at nothing before
    the section's header, stops at the next `[`, never fails at the end of the
    file, and inside a section whose lines hold no `[` and no `#` it collects
    exactly what Load stores for that section. */
module ReadFacts {
  import opened Strings
  import opened Syntax
  import P = Parser
  import E = Extract

  /** The header line ReadFile looks for: the case-folded line starts with
      `[section]`. */
  predicate IsHeader(l: string, section: string) {
    HasPrefix(Lower(l + "\n"), "[" + section + "]")
  }

  /** Before the header, every line that is not the section's header only
      advances the line count: nothing is parsed, so nothing can fail. */
  lemma {:induction false} SkipsToHeader(st: E.ReadState, section: string, pre: seq<string>, rest: seq<string>)
    requires !st.lx.flag.header
    requires forall k :: 0 <= k < |pre| ==> !IsHeader(pre[k], section)
    ensures E.ReadLines(st, section, pre + rest)
            == E.ReadLines(st.(lx := st.lx.(line := st.lx.line + |pre|)), section, rest)
    decreases |pre|
  {
    if pre == [] {
      assert pre + rest == rest;
      assert st.(lx := st.lx.(line := st.lx.line + |pre|)) == st;
    } else {
      assert (pre + rest)[0] == pre[0] && (pre + rest)[1..] == pre[1..] + rest;
      var st1 := st.(lx := st.lx.(line := st.lx.line + 1));
      assert !IsHeader(pre[0], section);
      SkipsToHeader(st1, section, pre[1..], rest);
    }
  }

  /** Empty lines and lines that start with `#` are skipped wherever they
      stand, before the header or inside the section, and are only counted:
      ReadFile tests for them before anything else (cfg.go:275). */
  lemma {:induction false} SkipsCommentLines(st: E.ReadState, section: string, skipped: seq<string>, rest: seq<string>)
    requires forall k :: 0 <= k < |skipped| ==> skipped[k] == [] || skipped[k][0] == '#'
    ensures E.ReadLines(st, section, skipped + rest)
            == E.ReadLines(st.(lx := st.lx.(line := st.lx.line + |skipped|)), section, rest)
    decreases |skipped|
  {
    if skipped == [] {
      assert skipped + rest == rest;
      assert st.(lx := st.lx.(line := st.lx.line + |skipped|)) == st;
    } else {
      assert (skipped + rest)[0] == skipped[0] && (skipped + rest)[1..] == skipped[1..] + rest;
      if skipped[0] != [] {
        assert (skipped[0] + "\n")[0] == '#';
      }
      var st1 := st.(lx := st.lx.(line := st.lx.line + 1));
      SkipsCommentLines(st1, section, skipped[1..], rest);
    }
  }

  /** A file without the section's header yields an empty map and no error. */
  lemma MissingSection(lines: seq<string>, section: string)
    requires forall k :: 0 <= k < |lines| ==> !IsHeader(lines[k], Lower(section))
    ensures E.ReadSpec(lines, section) == E.Read(map[])
  {
    SkipsToHeader(E.ReadStart, Lower(section), lines, []);
    assert lines + [] == lines;
  }

  /** Inside the section, a line that starts with `[` ends it: with no key
      open the map read so far is the result; with a key open it is a syntax
      error at the line of the last `=`, `,` or commit. */
  lemma StopsAtBracket(st: E.ReadState, section: string, l: string, rest: seq<string>)
    requires st.lx.flag.header && !st.lx.flag.escape && l != [] && l[0] == '['
    ensures E.ReadLines(st, section, [l] + rest)
            == if st.lx.flag.key then E.ReadFailed(st.out, st.lx.last) else E.Read(st.out)
  {
    var txt := l + "\n";
    assert ([l] + rest)[0] == l;
    assert txt[0] == '[';
  }

  /** A `#` inside a line: Load drops the rest of the line, ReadFile buffers
      the `#` like any other character of the value. */
  lemma HashInLine(st: P.LoadState, rt: E.ReadState, txt: string, i: nat)
    requires i < |txt| - 1 && txt[i] == '#' && !st.lx.flag.escape && !rt.lx.flag.escape
    ensures P.LoadChar(st, txt, i) == P.NextLine(st)
    ensures E.ReadChar(rt, txt, i) == E.Continue(rt.(lx := rt.lx.(flag := rt.lx.flag.(comma := false), buf := rt.lx.buf + "#")))
  {
  }

  /** A line of a section body Load and ReadFile treat alike: no newline, no
      `[` and no `#` in it. */
  predicate Clean(l: string) {
    forall j :: 0 <= j < |l| ==> l[j] != '\n' && l[j] != '[' && l[j] != '#'
  }

  /** Load's state and ReadFile's state at the same point of a section: the
      map ReadFile fills is the current section's map in Load's store, and the
      lexers agree except that ReadFile keeps HEADER set and may not yet have
      recorded the header line as `last`. */
  predicate Mirrors(st: P.LoadState, rt: E.ReadState) {
    st.section in st.store && rt.out == st.store[st.section]
    && rt.lx == st.lx.(flag := st.lx.flag.(header := true), last := rt.lx.last)
  }

  /** The lexers of the two machines agree: all but HEADER and `last`. */
  predicate Agree(lx: Lexer, rlx: Lexer) {
    rlx == lx.(flag := lx.flag.(header := true), last := rlx.last)
  }

  /** The outcomes of the shared character branches agree. */
  predicate Same(a: Lexed, b: Lexed) {
    match a
    case Lexed(x) => b.Lexed? && Agree(x, b.lx)
    case LexError(n) => b == LexError(n)
  }

  /** The branches shared by the two switches (escape, `=`, `,`, `\\` and the
      default branch) lead to agreeing lexers or to the same error. */
  lemma SameEscaped(lx: Lexer, rlx: Lexer, ch: char, atEnd: bool)
    requires Agree(lx, rlx) && lx.flag.escape
    ensures Same(Escaped(lx, ch, atEnd), Escaped(rlx, ch, atEnd))
  {
  }

  lemma SameAssign(lx: Lexer, rlx: Lexer)
    requires Agree(lx, rlx)
    ensures Same(Assign(lx), Assign(rlx))
  {
  }

  lemma SameSeparate(lx: Lexer, rlx: Lexer)
    requires Agree(lx, rlx)
    ensures Same(Separate(lx), Separate(rlx))
  {
  }

  lemma SameOrdinary(lx: Lexer, rlx: Lexer, ch: char, atEnd: bool)
    requires Agree(lx, rlx)
    ensures Same(Ordinary(lx, ch, atEnd), Ordinary(rlx, ch, atEnd))
  {
  }

  lemma SameBackslash(lx: Lexer, rlx: Lexer, atEnd: bool)
    requires Agree(lx, rlx)
    ensures Same(Backslash(lx, atEnd), Backslash(rlx, atEnd))
  {
    var e := lx.flag.(escape := true);
    SameOrdinary(lx.(flag := e), rlx.(flag := rlx.flag.(escape := true)), '\\', atEnd);
  }

  /** Agreeing outcomes of a shared branch, lifted to the two machines. */
  lemma MirrorLift(st: P.LoadState, rt: E.ReadState, a: Lexed, b: Lexed)
    requires Mirrors(st, rt) && Same(a, b)
    ensures match P.Lift(st, a)
      case Continue(st2) =>
        st2.section == st.section && E.Lift(rt, b).Continue? && Mirrors(st2, E.Lift(rt, b).st)
      case Fail(s, n) => st.section in s && E.Lift(rt, b) == E.Fail(s[st.section], n)
      case _ => false
  {
  }

  /** One character of a clean line: both machines go on alike, or fail at
      the same line; Load's commit ends its line where ReadFile goes on to the
      end of the line, and Load never panics since the section exists. */
  lemma MirrorChar(st: P.LoadState, rt: E.ReadState, txt: string, i: nat)
    requires Mirrors(st, rt) && i < |txt|
    requires txt[i] != '[' && txt[i] != '#' && (txt[i] == '\n' ==> i == |txt| - 1)
    ensures match P.LoadChar(st, txt, i)
      case Continue(st2) =>
        st2.section == st.section && E.ReadChar(rt, txt, i).Continue? && Mirrors(st2, E.ReadChar(rt, txt, i).st)
      case NextLine(st2) =>
        st2.section == st.section && i == |txt| - 1
        && E.ReadChar(rt, txt, i).Continue? && Mirrors(st2, E.ReadChar(rt, txt, i).st)
      case Fail(s, n) => st.section in s && E.ReadChar(rt, txt, i) == E.Fail(s[st.section], n)
      case Abort => false
  {
    var lx, rlx, ch, atEnd := st.lx, rt.lx, txt[i], i == |txt| - 1;
    if lx.flag.escape {
      SameEscaped(lx, rlx, ch, atEnd);
      MirrorLift(st, rt, Escaped(lx, ch, atEnd), Escaped(rlx, ch, atEnd));
    } else if ch == '=' {
      SameAssign(lx, rlx);
      MirrorLift(st, rt, Assign(lx), Assign(rlx));
    } else if ch == ',' {
      SameSeparate(lx, rlx);
      MirrorLift(st, rt, Separate(lx), Separate(rlx));
    } else if ch == '\\' {
      SameBackslash(lx, rlx, atEnd);
      MirrorLift(st, rt, Backslash(lx, atEnd), Backslash(rlx, atEnd));
    } else if ch != '\n' {
      SameOrdinary(lx, rlx, ch, atEnd);
      MirrorLift(st, rt, Ordinary(lx, ch, atEnd), Ordinary(rlx, ch, atEnd));
    }
  }

  /** The rest of a clean line from character i on. */
  lemma {:induction false} MirrorLine(st: P.LoadState, rt: E.ReadState, txt: string, i: nat)
    requires Mirrors(st, rt) && i <= |txt| && txt != [] && txt[|txt| - 1] == '\n' && Clean(txt[..|txt| - 1])
    ensures match P.LoadLine(st, txt, i)
      case NextLine(st2) =>
        st2.section == st.section && E.ReadLine(rt, txt, i).NextLine? && Mirrors(st2, E.ReadLine(rt, txt, i).st)
      case Fail(s, n) => st.section in s && E.ReadLine(rt, txt, i) == E.Fail(s[st.section], n)
      case _ => false
    decreases |txt| - i
  {
    if i < |txt| {
      assert i < |txt| - 1 ==> txt[i] == txt[..|txt| - 1][i];
      MirrorChar(st, rt, txt, i);
      match P.LoadChar(st, txt, i)
      case Continue(st2) =>
        MirrorLine(st2, E.ReadChar(rt, txt, i).st, txt, i + 1);
      case NextLine(st2) =>
        var rt2 := E.ReadChar(rt, txt, i).st;
        assert E.ReadLine(rt2, txt, i + 1) == E.NextLine(rt2);
      case Fail(s, n) =>
      case Abort =>
    }
  }

  /** A section body of clean lines: ReadFile returns the map Load stores for
      the section; a syntax error inside a line is the same error for both,
      and Load's error for a key left open at the end of the file is no error
      for ReadFile. */
  lemma {:induction false} MirrorLines(st: P.LoadState, rt: E.ReadState, section: string, lines: seq<string>)
    requires Mirrors(st, rt) && forall k :: 0 <= k < |lines| ==> Clean(lines[k])
    ensures match P.LoadLines(st, lines)
      case Loaded(m) => st.section in m && E.ReadLines(rt, section, lines) == E.Read(m[st.section])
      case Failed(m, n) =>
        st.section in m
        && E.ReadLines(rt, section, lines)
           == if OpenAtEnd(st, lines) then E.Read(m[st.section]) else E.ReadFailed(m[st.section], n)
      case Aborted => false
    decreases |lines|
  {
    if lines != [] {
      var st1 := st.(lx := st.lx.(line := st.lx.line + 1));
      var rt1 := rt.(lx := rt.lx.(line := rt.lx.line + 1));
      assert Mirrors(st1, rt1);
      var txt := lines[0] + "\n";
      if |txt| >= 2 {
        assert txt[..|txt| - 1] == lines[0] && txt[0] == lines[0][0];
        MirrorLine(st1, rt1, txt, 0);
        LoadLinesStep(st, lines);
        ReadLinesStep(rt, section, lines);
        OpenAtEndStep(st, lines);
        match P.LoadLine(st1, txt, 0)
        case NextLine(st2) =>
          MirrorLines(st2, E.ReadLine(rt1, txt, 0).st, section, lines[1..]);
        case Fail(s, n) =>
        case _ =>
      } else {
        assert P.LoadLines(st, lines) == P.LoadLines(st1, lines[1..]);
        assert E.ReadLines(rt, section, lines) == E.ReadLines(rt1, section, lines[1..]);
        assert OpenAtEnd(st, lines) == OpenAtEnd(st1, lines[1..]);
        MirrorLines(st1, rt1, section, lines[1..]);
      }
    }
  }

  /** Load reaches the end of the lines with a key still open: every line
      before ends normally, and the last one leaves a list waiting for more. */
  predicate OpenAtEnd(st: P.LoadState, lines: seq<string>)
    decreases |lines|
  {
    if lines == [] then st.lx.flag.key
    else
      var st1 := st.(lx := st.lx.(line := st.lx.line + 1));
      var txt := lines[0] + "\n";
      if |txt| < 2 then OpenAtEnd(st1, lines[1..])
      else
        var r := P.LoadLine(st1, txt, 0);
        r.NextLine? && OpenAtEnd(r.st, lines[1..])
  }

  /** OpenAtEnd is the end-of-file failure of cfg.go:249-250: Load then fails
      at `last`, with the store as it stands. */
  lemma {:induction false} OpenAtEndFails(st: P.LoadState, lines: seq<string>)
    requires OpenAtEnd(st, lines)
    ensures P.LoadLines(st, lines).Failed?
    decreases |lines|
  {
    if lines != [] {
      var st1 := st.(lx := st.lx.(line := st.lx.line + 1));
      if |lines[0] + "\n"| < 2 {
        OpenAtEndFails(st1, lines[1..]);
      } else {
        LoadLinesStep(st, lines);
        OpenAtEndStep(st, lines);
        OpenAtEndFails(P.LoadLine(st1, lines[0] + "\n", 0).st, lines[1..]);
      }
    }
  }

  /** OpenAtEnd on a line that is not empty. */
  lemma OpenAtEndStep(st: P.LoadState, lines: seq<string>)
    requires lines != [] && lines[0] != []
    ensures var r := P.LoadLine(st.(lx := st.lx.(line := st.lx.line + 1)), lines[0] + "\n", 0);
      OpenAtEnd(st, lines) == (r.NextLine? && OpenAtEnd(r.st, lines[1..]))
  {
  }

  /** Load on a line that is not empty: the line's outcome decides. */
  lemma LoadLinesStep(st: P.LoadState, lines: seq<string>)
    requires lines != [] && lines[0] != []
    ensures var r := P.LoadLine(st.(lx := st.lx.(line := st.lx.line + 1)), lines[0] + "\n", 0);
      P.LoadLines(st, lines) ==
        if r.NextLine? then P.LoadLines(r.st, lines[1..])
        else if r.Fail? then P.Failed(r.store, r.line)
        else P.Aborted
  {
  }

  /** ReadFile inside the section on a line that is neither empty nor a
      comment: the line's outcome decides. */
  lemma ReadLinesStep(rt: E.ReadState, section: string, lines: seq<string>)
    requires lines != [] && lines[0] != [] && lines[0][0] != '#' && rt.lx.flag.header
    ensures var r := E.ReadLine(rt.(lx := rt.lx.(line := rt.lx.line + 1)), lines[0] + "\n", 0);
      r.NextLine? ==> E.ReadLines(rt, section, lines) == E.ReadLines(r.st, section, lines[1..])
    ensures var r := E.ReadLine(rt.(lx := rt.lx.(line := rt.lx.line + 1)), lines[0] + "\n", 0);
      r.Fail? ==> E.ReadLines(rt, section, lines) == E.ReadFailed(r.out, r.line)
  {
  }

  /** A file holding one section `[name]` with a clean body: ReadFile for that
      section agrees with Load, as MirrorLines states. */
  lemma ReadAgreesWithLoad(name: string, body: seq<string>)
    requires forall k :: 0 <= k < |body| ==> Clean(body[k])
    ensures var lines := ["[" + name + "]"] + body;
      match P.LoadSpec(lines)
      case Loaded(m) => Lower(name) in m && E.ReadSpec(lines, name) == E.Read(m[Lower(name)])
      case Failed(m, n) =>
        Lower(name) in m
        && E.ReadSpec(lines, name)
           == if OpenAtEnd(AfterHeader(name), body) then E.Read(m[Lower(name)]) else E.ReadFailed(m[Lower(name)], n)
      case Aborted => false
  {
    var lines := ["[" + name + "]"] + body;
    var st2 := LoadHeaderFirst(name, body);
    var rt2 := ReadHeaderFirst(name, body);
    assert Mirrors(st2, rt2);
    MirrorLines(st2, rt2, Lower(name), body);
  }

  /** Load's state once the header line `[name]` opened the file. */
  function AfterHeader(name: string): P.LoadState {
    var lx := P.Start.lx.(line := 1);
    P.LoadState(lx.(flag := lx.flag.(header := true), last := 1), Lower(name), map[Lower(name) := map[]])
  }

  /** ReadFile's state once it found the header line `[name]` first. */
  function ReadAfterHeader(): E.ReadState {
    var lx := E.ReadStart.lx.(line := 1);
    E.ReadState(lx.(flag := lx.flag.(header := true)), map[])
  }

  /** Load reads the header line and goes on with the body. */
  lemma LoadHeaderFirst(name: string, body: seq<string>) returns (st2: P.LoadState)
    ensures st2 == AfterHeader(name)
    ensures P.LoadSpec(["[" + name + "]"] + body) == P.LoadLines(st2, body)
  {
    var lines := ["[" + name + "]"] + body;
    var txt := "[" + name + "]\n";
    assert lines[0] + "\n" == txt && lines[1..] == body;
    var st1 := P.Start.(lx := P.Start.lx.(line := 1));
    st2 := AfterHeader(name);
    assert P.LoadLine(st1, txt, 0) == P.NextLine(st2) by {
      assert txt[0] == '[' && txt[0] in "[ & ]";
      assert txt[1..|txt| - 2] == name;
    }
  }

  /** ReadFile finds the header line of the section it looks for and goes on
      with the body. */
  lemma ReadHeaderFirst(name: string, body: seq<string>) returns (rt2: E.ReadState)
    ensures rt2 == ReadAfterHeader()
    ensures E.ReadSpec(["[" + name + "]"] + body, name) == E.ReadLines(rt2, Lower(name), body)
  {
    var lines := ["[" + name + "]"] + body;
    var txt := "[" + name + "]\n";
    assert lines[0] + "\n" == txt && lines[1..] == body;
    rt2 := ReadAfterHeader();
    assert IsHeader(lines[0], Lower(name)) by {
      assert txt == ("[" + name + "]") + "\n";
      LowerAppend("[" + name + "]", "\n");
      LowerAppend("[" + name, "]");
      LowerAppend("[", name);
    }
    assert txt[0] == '[' && txt[0] in "[ & ]";
  }
}
