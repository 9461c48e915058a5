/** Load keeps the store's names case-folded: the header branch folds the
    section name (cfg.go:199) and setKey folds the key (cfg.go:128) before
    either becomes a map key, so every store Load returns is Folded. */
module Folding {
  import opened Strings
  import opened Syntax
  import opened Parser

  /** Load's variables keep the invariant: the store is folded, and so are the
      current section and the current key, the names the next commit uses. */
  predicate FoldedState(st: LoadState) {
    Folded(st.store) && Lower(st.section) == st.section && Lower(st.lx.key) == st.lx.key
  }

  /** What a line step keeps: the next state, or the store beside an error. */
  predicate FoldedStep(r: LineStep) {
    ((r.Continue? || r.NextLine?) ==> FoldedState(r.st)) && (r.Fail? ==> Folded(r.store))
  }

  /** A shared branch changes only the lexer, and a new key is setKey's. */
  lemma LiftFolded(st: LoadState, r: Lexed)
    requires FoldedState(st) && (r.Lexed? ==> Lower(r.lx.key) == r.lx.key)
    ensures FoldedStep(Lift(st, r))
  {
  }

  /** setKey's result is a fixed point of Lower. */
  lemma SetKeyFolded(buf: string)
    ensures Lower(SetKey(buf)) == SetKey(buf)
  {
    LowerIdempotent(TrimSpace(buf));
  }

  /** One character keeps the invariant. */
  lemma LoadCharFolded(st: LoadState, txt: string, i: nat)
    requires FoldedState(st) && i < |txt|
    ensures FoldedStep(LoadChar(st, txt, i))
  {
    var lx, ch, atEnd := st.lx, txt[i], i == |txt| - 1;
    if lx.flag.escape {
      LiftFolded(st, Escaped(lx, ch, atEnd));
    } else if ch == '[' {
      if !lx.flag.key && |txt| > 2 && ContainsAny(txt, "[ & ]") {
        LowerIdempotent(txt[1..|txt| - 2]);
      }
    } else if ch == '=' {
      SetKeyFolded(lx.buf);
      LiftFolded(st, Assign(lx));
    } else if ch == ',' {
      LiftFolded(st, Separate(lx));
    } else if ch == '\\' {
      LiftFolded(st, Backslash(lx, atEnd));
    } else if ch != '#' && ch != '\n' {
      LiftFolded(st, Ordinary(lx, ch, atEnd));
    }
  }

  /** The rest of a line keeps the invariant. */
  lemma {:induction false} LoadLineFolded(st: LoadState, txt: string, i: nat)
    requires FoldedState(st) && i <= |txt|
    ensures FoldedStep(LoadLine(st, txt, i))
    decreases |txt| - i
  {
    if i < |txt| {
      LoadCharFolded(st, txt, i);
      var r := LoadChar(st, txt, i);
      if r.Continue? {
        LoadLineFolded(r.st, txt, i + 1);
      }
    }
  }

  /** A Load outcome that carries a store carries a folded one. */
  predicate FoldedResult(r: LoadResult) {
    !r.Aborted? ==> Folded(r.store)
  }

  /** The remaining lines keep the invariant: the store Load returns, with or
      without a syntax error, is folded. */
  lemma {:induction false} LoadLinesFolded(st: LoadState, lines: seq<string>)
    requires FoldedState(st)
    ensures FoldedResult(LoadLines(st, lines))
    decreases |lines|
  {
    if lines != [] {
      var st1 := st.(lx := st.lx.(line := st.lx.line + 1));
      var txt := lines[0] + "\n";
      assert FoldedState(st1);
      if |txt| < 2 {
        LoadLinesFolded(st1, lines[1..]);
      } else {
        var r := LoadLine(st1, txt, 0);
        assert FoldedStep(r) by { LoadLineFolded(st1, txt, 0); }
        if r.NextLine? {
          LoadLinesFolded(r.st, lines[1..]);
        }
      }
    }
  }

  /** Every store Load returns holds case-folded names only. */
  lemma LoadSpecFolded(lines: seq<string>)
    ensures FoldedResult(LoadSpec(lines))
  {
    assert Lower([]) == [];
    LoadLinesFolded(Start, lines);
  }
}
