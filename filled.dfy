/** Load never stores a key without a value: the commit at the end of a key's
    list stores what addVal has just appended to (cfg.go:218-223), and the
    header branch adds an empty section map (cfg.go:200), so every store Load
    returns satisfies NonEmptyLists. */
module Filled {
  import opened Syntax
  import opened Parser

  /** What a line step keeps: the next state's store, or the store beside an
      error. */
  predicate FilledStep(r: LineStep) {
    ((r.Continue? || r.NextLine?) ==> NonEmptyLists(r.st.store)) && (r.Fail? ==> NonEmptyLists(r.store))
  }

  /** A Load outcome that carries a store carries one without empty lists. */
  predicate FilledResult(r: LoadResult) {
    !r.Aborted? ==> NonEmptyLists(r.store)
  }

  /** One character keeps the invariant. */
  lemma LoadCharFilled(st: LoadState, txt: string, i: nat)
    requires NonEmptyLists(st.store) && i < |txt|
    ensures FilledStep(LoadChar(st, txt, i))
  {
    var lx, ch := st.lx, txt[i];
    if !lx.flag.escape && ch == '\n' && lx.flag.key && !lx.flag.comma && st.section in st.store {
      var values := AddVal(lx.buf, lx.val);
      assert values != [];
    }
  }

  /** The rest of a line keeps it. */
  lemma {:induction false} LoadLineFilled(st: LoadState, txt: string, i: nat)
    requires NonEmptyLists(st.store) && i <= |txt|
    ensures FilledStep(LoadLine(st, txt, i))
    decreases |txt| - i
  {
    if i < |txt| {
      LoadCharFilled(st, txt, i);
      var r := LoadChar(st, txt, i);
      if r.Continue? {
        LoadLineFilled(r.st, txt, i + 1);
      }
    }
  }

  /** The remaining lines keep it, up to a syntax error included. */
  lemma {:induction false} LoadLinesFilled(st: LoadState, lines: seq<string>)
    requires NonEmptyLists(st.store)
    ensures FilledResult(LoadLines(st, lines))
    decreases |lines|
  {
    if lines != [] {
      var st1 := st.(lx := st.lx.(line := st.lx.line + 1));
      var txt := lines[0] + "\n";
      if |txt| < 2 {
        LoadLinesFilled(st1, lines[1..]);
      } else {
        var r := LoadLine(st1, txt, 0);
        assert FilledStep(r) by { LoadLineFilled(st1, txt, 0); }
        if r.NextLine? {
          LoadLinesFilled(r.st, lines[1..]);
        }
      }
    }
  }

  /** Every store Load returns gives each of its keys at least one value. */
  lemma LoadSpecNonEmpty(lines: seq<string>)
    ensures FilledResult(LoadSpec(lines))
  {
    LoadLinesFilled(Start, lines);
  }
}
