/** What Load (cfg.go:159-253) does with the lines of a configuration file:
    assignments, continuation lines, escapes, comments, headers and the syntax
    errors, each proved of the character machine in Parser. */
module LoadFacts {
  import opened Strings
  import opened Syntax
  import opened Parser

  /** A character the switch leaves to its default branch. */
  predicate Plain(c: char) {
    c != '=' && c != ',' && c != '[' && c != '#' && c != '\\' && c != '\n'
  }

  predicate AllPlain(s: string) {
    forall i :: 0 <= i < |s| ==> Plain(s[i])
  }

  /** The lexer after the default branch has taken each character of s, none
      of them the last of its line. */
  function Ordinaries(lx: Lexer, s: string): (r: Lexer)
    ensures r == lx.(buf := r.buf, flag := lx.flag.(comma := r.flag.comma))
    ensures r.flag.comma ==> lx.flag.comma
    decreases |s|
  {
    if s == [] then lx else Ordinaries(Ordinary(lx, s[0], false).lx, s[1..])
  }

  /** s without its leading blanks and tabs. */
  function SkipBlanks(s: string): (r: string)
    ensures |r| <= |s| && r == s[|s| - |r|..]
    ensures forall i :: 0 <= i < |s| - |r| ==> s[i] == ' ' || s[i] == '\t'
  {
    if s != [] && (s[0] == ' ' || s[0] == '\t') then
      var r := SkipBlanks(s[1..]);
      assert s[1..][|s| - 1 - |r|..] == s[|s| - |r|..];
      r
    else s
  }

  /** Once the buffer holds something, every character is appended. */
  lemma {:induction false} OrdinariesAppend(lx: Lexer, s: string)
    requires lx.buf != []
    ensures Ordinaries(lx, s).buf == lx.buf + s
    decreases |s|
  {
    if s != [] {
      OrdinariesAppend(Ordinary(lx, s[0], false).lx, s[1..]);
      assert lx.buf + [s[0]] + s[1..] == lx.buf + s;
    }
  }

  /** From an empty buffer, the leading blanks and tabs are skipped and the rest
      is buffered. */
  lemma {:induction false} OrdinariesFromEmpty(lx: Lexer, s: string)
    requires lx.buf == []
    ensures Ordinaries(lx, s).buf == SkipBlanks(s)
    decreases |s|
  {
    if s != [] {
      if s[0] == ' ' || s[0] == '\t' {
        OrdinariesFromEmpty(lx, s[1..]);
      } else {
        OrdinariesAppend(Ordinary(lx, s[0], false).lx, s[1..]);
        assert [s[0]] + s[1..] == s;
      }
    }
  }

  /** Trimming forgets the skipped blanks. */
  lemma SkipBlanksTrim(s: string, t: string)
    ensures TrimSpace(SkipBlanks(s) + t) == TrimSpace(s + t)
  {
    var k := |s| - |SkipBlanks(s)|;
    assert (s + t)[k..] == s[k..] + t;
    TrimSpaceDropsLeading(s + t, k);
  }

  /** The trimmed buffer after a run from an empty buffer is the trimmed run. */
  lemma RunTrim(lx: Lexer, s: string)
    requires lx.buf == []
    ensures TrimSpace(Ordinaries(lx, s).buf) == TrimSpace(s)
  {
    OrdinariesFromEmpty(lx, s);
    SkipBlanksTrim(s, []);
    assert s + [] == s && SkipBlanks(s) + [] == SkipBlanks(s);
  }

  /** A run of plain characters, none of them the line's last, goes through the
      default branch one by one. */
  lemma {:induction false} LoadRun(st: LoadState, txt: string, i: nat, j: nat)
    requires i <= j < |txt| && AllPlain(txt[i..j]) && !st.lx.flag.escape
    ensures LoadLine(st, txt, i) == LoadLine(st.(lx := Ordinaries(st.lx, txt[i..j])), txt, j)
    decreases j - i
  {
    if i < j {
      assert txt[i..j][0] == txt[i] && txt[i..j][1..] == txt[i + 1..j];
      LoadRun(st.(lx := Ordinary(st.lx, txt[i], false).lx), txt, i + 1, j);
    }
  }

  /** The lexer with a key open and nothing buffered: where the values of an
      assignment start. */
  predicate Opened(lx: Lexer) {
    lx.flag.key && !lx.flag.escape && !lx.flag.comma && lx.buf == []
  }

  /** `=` with no key open: the trimmed, case-folded buffer becomes the key. */
  lemma AssignStep(st: LoadState, txt: string, j: nat)
    requires j < |txt| - 1 && txt[j] == '=' && !st.lx.flag.key && !st.lx.flag.escape
    ensures var lx := st.lx;
      LoadLine(st, txt, j) ==
        LoadLine(st.(lx := lx.(flag := lx.flag.(key := true), key := Lower(TrimSpace(lx.buf)), buf := [], last := lx.line)), txt, j + 1)
  {
  }

  /** `,` with a key open: the trimmed buffer joins the list. */
  lemma SeparateStep(st: LoadState, txt: string, j: nat)
    requires j < |txt| - 1 && txt[j] == ',' && st.lx.flag.key && !st.lx.flag.escape
    ensures var lx := st.lx;
      LoadLine(st, txt, j) ==
        LoadLine(st.(lx := lx.(val := lx.val + [TrimSpace(lx.buf)], buf := [], last := lx.line, flag := lx.flag.(comma := true))), txt, j + 1)
  {
  }

  /** The newline after a comma: the list goes on with the next line. */
  lemma ContinueStep(st: LoadState, txt: string)
    requires |txt| > 0 && txt[|txt| - 1] == '\n' && st.lx.flag.key && st.lx.flag.comma && !st.lx.flag.escape
    ensures LoadLine(st, txt, |txt| - 1) == NextLine(st.(lx := st.lx.(flag := st.lx.flag.(comma := false))))
  {
  }

  /** The newline that commits: the list, with the trimmed buffer, is stored
      under the key in the current section. */
  lemma CommitStep(st: LoadState, txt: string)
    requires |txt| > 0 && txt[|txt| - 1] == '\n' && st.lx.flag.key && !st.lx.flag.comma && !st.lx.flag.escape
    ensures var lx := st.lx;
      LoadLine(st, txt, |txt| - 1) ==
        if st.section !in st.store then Abort
        else NextLine(LoadState(lx.(flag := lx.flag.(header := false, key := false), buf := [], val := [], last := lx.line),
                                st.section, st.store[st.section := st.store[st.section][lx.key := lx.val + [TrimSpace(lx.buf)]]]))
  {
  }

  /** The end of a value: a comma and the newline continue the list on the next
      line, a newline alone commits it. */
  lemma ValueEnd(st: LoadState, txt: string, j: nat, comma: bool)
    requires st.lx.flag.key && !st.lx.flag.escape && !st.lx.flag.comma
    requires j <= |txt| && txt[j..] == (if comma then ",\n" else "\n")
    ensures var lx := st.lx;
      LoadLine(st, txt, j) ==
        if comma then
          NextLine(st.(lx := lx.(val := lx.val + [TrimSpace(lx.buf)], buf := [], last := lx.line)))
        else if st.section !in st.store then Abort
        else NextLine(LoadState(lx.(flag := lx.flag.(header := false, key := false), buf := [], val := [], last := lx.line),
                                st.section, st.store[st.section := st.store[st.section][lx.key := lx.val + [TrimSpace(lx.buf)]]]))
  {
    var lx := st.lx;
    if comma {
      assert txt[j] == ',' && j + 2 == |txt|;
      SeparateStep(st, txt, j);
      ContinueStep(st.(lx := lx.(val := lx.val + [TrimSpace(lx.buf)], buf := [], last := lx.line, flag := lx.flag.(comma := true))), txt);
    } else {
      CommitStep(st, txt);
    }
  }

  /** The value v that ends a line: a trailing comma adds it to the list, which
      goes on with the next line; otherwise the list, with v, is stored under
      the key in the current section, the key closes and HEADER is cleared, or,
      when no section has been read, the store is written through a nil map. */
  lemma ValueRun(st: LoadState, txt: string, i: nat, v: string, comma: bool)
    requires Opened(st.lx) && AllPlain(v)
    requires i <= |txt| && txt[i..] == v + (if comma then ",\n" else "\n")
    ensures var lx := st.lx;
      LoadLine(st, txt, i) ==
        if comma then
          NextLine(st.(lx := lx.(val := lx.val + [TrimSpace(v)], last := lx.line)))
        else if st.section !in st.store then Abort
        else NextLine(LoadState(lx.(flag := lx.flag.(header := false, key := false), val := [], last := lx.line),
                                st.section, st.store[st.section := st.store[st.section][lx.key := lx.val + [TrimSpace(v)]]]))
  {
    var j := i + |v|;
    var lx1 := Ordinaries(st.lx, v);
    SplitAt(txt, i, j, v, if comma then ",\n" else "\n");
    LoadRun(st, txt, i, j);
    assert lx1 == st.lx.(buf := lx1.buf);
    assert TrimSpace(lx1.buf) == TrimSpace(v) by {
      RunTrim(st.lx, v);
    }
    ValueEnd(st.(lx := lx1), txt, j, comma);
  }

  /** The lexer with no key open and nothing buffered: where a line that
      assigns a key starts. */
  predicate Idle(lx: Lexer) {
    !lx.flag.key && !lx.flag.escape && !lx.flag.comma && lx.buf == []
  }

  /** The lexer once `=` has opened the key k, with buf buffered after it. */
  function Keyed(lx: Lexer, k: string, buf: string): (r: Lexer)
    ensures r.flag.key && r.key == Lower(TrimSpace(k)) && r.buf == buf && r.last == lx.line
  {
    lx.(flag := lx.flag.(key := true), key := Lower(TrimSpace(k)), buf := buf, last := lx.line)
  }

  /** The line starts with the text k, a blank and `=`, and u follows the `=`
      (something, at least the newline, comes after u). */
  predicate AssignAt(txt: string, k: string, u: string) {
    |k| + 2 + |u| < |txt| && txt[0..|k| + 1] == k + " " && txt[|k| + 1] == '=' && txt[|k| + 2..|k| + 2 + |u|] == u
  }

  /** Where AssignAt holds: a line `k =` followed by u and a non-empty rest. */
  lemma AssignText(txt: string, k: string, u: string, rest: string)
    requires rest != [] && txt == (k + " ") + ("=" + (u + rest))
    ensures AssignAt(txt, k, u) && txt[|k| + 2 + |u|..] == rest
  {
    assert txt[|k| + 2..] == u + rest;
  }

  lemma SplitAt(txt: string, i: nat, j: nat, v: string, tail: string)
    requires i <= |txt| && txt[i..] == v + tail && j == i + |v|
    ensures j <= |txt| && txt[i..j] == v && txt[j..] == tail
  {
    assert txt[i..][..|v|] == v;
    assert txt[i..][|v|..] == tail;
  }

  /** The key of an assignment line: the text before `=`, with the blank in
      front of the `=`, becomes the trimmed, case-folded key. */
  lemma AssignHead(st: LoadState, txt: string, k: string, i: nat)
    requires Idle(st.lx) && AllPlain(k) && i == |k| + 2
    requires i < |txt| && txt[0..|k| + 1] == k + " " && txt[|k| + 1] == '='
    ensures LoadLine(st, txt, 0) == LoadLine(st.(lx := Keyed(st.lx, k, [])), txt, i)
  {
    var n := |k| + 1;
    assert AllPlain(k + " ");
    RunOf(st, txt, 0, n, k + " ");
    var lx1 := Ordinaries(st.lx, k + " ");
    assert TrimSpace(lx1.buf) == TrimSpace(k) by {
      RunTrim(st.lx, k + " ");
      TrimSpaceDropsTrailing(k, " ");
    }
    assert lx1 == st.lx.(buf := lx1.buf);
    AssignStep(st.(lx := lx1), txt, n);
  }

  /** The plain text u at position i of a line, not reaching its last character. */
  lemma RunOf(st: LoadState, txt: string, i: nat, j: nat, u: string)
    requires j == i + |u| && j < |txt| && txt[i..j] == u && AllPlain(u) && !st.lx.flag.escape
    ensures LoadLine(st, txt, i) == LoadLine(st.(lx := Ordinaries(st.lx, u)), txt, j)
  {
    LoadRun(st, txt, i, j);
  }

  /** The key of an assignment line and the plain text u after its `=`: the key
      is open and u, without its leading blanks, is in the buffer. */
  lemma AssignedRun(st: LoadState, txt: string, k: string, u: string, j: nat)
    requires Idle(st.lx) && AllPlain(k) && AllPlain(u) && AssignAt(txt, k, u) && j == |k| + 2 + |u|
    ensures LoadLine(st, txt, 0) == LoadLine(st.(lx := Keyed(st.lx, k, SkipBlanks(u))), txt, j)
  {
    var i := |k| + 2;
    var st2 := st.(lx := Keyed(st.lx, k, []));
    AssignHead(st, txt, k, i);
    RunOf(st2, txt, i, j, u);
    assert Ordinaries(st2.lx, u) == Keyed(st.lx, k, SkipBlanks(u)) by {
      OrdinariesFromEmpty(st2.lx, u);
    }
  }

  lemma AssignLineText(k: string, v: string, comma: bool)
    ensures var tail := if comma then ",\n" else "\n";
      var txt := k + " = " + v + tail;
      |k| + 2 < |txt| && txt[0..|k| + 1] == k + " " && txt[|k| + 1] == '=' && txt[|k| + 2..] == (" " + v) + tail
  {
    var tail := if comma then ",\n" else "\n";
    AssignText(k + " = " + v + tail, k, [], " " + v + tail);
  }

  lemma TrimBlankFirst(v: string)
    ensures TrimSpace(" " + v) == TrimSpace(v)
  {
    TrimSpaceDropsLeading(" " + v, 1);
    assert (" " + v)[1..] == v;
  }

  /** An assignment line `k = v` (with or without a trailing comma): `=` makes
      the trimmed, case-folded text before it the key, and the value is
      trimmed, then handled as ValueRun says. */
  lemma AssignLine(st: LoadState, k: string, v: string, comma: bool)
    requires Idle(st.lx) && st.lx.val == [] && AllPlain(k) && AllPlain(v)
    ensures var txt := k + " = " + v + (if comma then ",\n" else "\n");
      var lx := st.lx;
      LoadLine(st, txt, 0) ==
        if comma then
          NextLine(st.(lx := lx.(flag := lx.flag.(key := true), key := Lower(TrimSpace(k)), val := [TrimSpace(v)], last := lx.line)))
        else if st.section !in st.store then Abort
        else NextLine(LoadState(lx.(flag := lx.flag.(header := false), key := Lower(TrimSpace(k)), last := lx.line),
                                st.section, st.store[st.section := st.store[st.section][Lower(TrimSpace(k)) := [TrimSpace(v)]]]))
  {
    var txt := k + " = " + v + (if comma then ",\n" else "\n");
    AssignLineText(k, v, comma);
    var i := |k| + 2;
    var st2 := st.(lx := Keyed(st.lx, k, []));
    AssignHead(st, txt, k, i);
    assert AllPlain(" " + v);
    ValueRun(st2, txt, i, " " + v, comma);
    assert st2.lx.val + [TrimSpace(" " + v)] == [TrimSpace(v)] by {
      TrimBlankFirst(v);
    }
  }

  lemma ContinuationText(n: nat, v: string, tail: string)
    requires AllPlain(v)
    ensures (Blanks(n) + v + tail)[0..] == (Blanks(n) + v) + tail
    ensures TrimSpace(Blanks(n) + v) == TrimSpace(v)
    ensures AllPlain(Blanks(n) + v)
  {
    TrimSpaceDropsLeading(Blanks(n) + v, n);
    assert (Blanks(n) + v)[n..] == v;
  }

  /** A continuation line: blanks, then a value, with or without a comma. */
  lemma ContinuationLine(st: LoadState, n: nat, v: string, comma: bool)
    requires Opened(st.lx) && AllPlain(v)
    ensures var txt := Blanks(n) + v + (if comma then ",\n" else "\n");
      var lx := st.lx;
      LoadLine(st, txt, 0) ==
        if comma then
          NextLine(st.(lx := lx.(val := lx.val + [TrimSpace(v)], last := lx.line)))
        else if st.section !in st.store then Abort
        else NextLine(LoadState(lx.(flag := lx.flag.(header := false, key := false), val := [], last := lx.line),
                                st.section, st.store[st.section := st.store[st.section][lx.key := lx.val + [TrimSpace(v)]]]))
  {
    var tail := if comma then ",\n" else "\n";
    var u := Blanks(n) + v;
    ContinuationText(n, v, tail);
    ValueRun(st, u + tail, 0, u, comma);
  }

  /** A header line `[name]`: the case-folded name becomes the current section,
      with a fresh, empty key map that replaces any earlier one, and HEADER is set. */
  lemma HeaderLine(st: LoadState, name: string)
    requires !st.lx.flag.key && !st.lx.flag.escape
    ensures LoadLine(st, "[" + name + "]\n", 0) ==
      NextLine(LoadState(st.lx.(flag := st.lx.flag.(header := true), last := st.lx.line),
                         Lower(name), st.store[Lower(name) := map[]]))
  {
    var txt := "[" + name + "]\n";
    assert txt[0] == '[' && txt[0] in "[ & ]";
    assert txt[1..|txt| - 2] == name;
  }

  /** A line `k = v` followed by the character ch, then c and the newline. */
  lemma MarkText(k: string, v: string, ch: char, c: string)
    ensures var txt := k + " = " + v + [ch] + c + "\n";
      AssignAt(txt, k, " " + v) && txt[|k| + 3 + |v|] == ch && |k| + 3 + |v| < |txt| - 1
  {
    var txt := k + " = " + v + [ch] + c + "\n";
    assert txt == (k + " ") + ("=" + ((" " + v) + ([ch] + c + "\n")));
    AssignText(txt, k, " " + v, [ch] + c + "\n");
  }

  /** An unescaped `#` drops the rest of the line, its newline included: the
      key opened on the line stays open and nothing is stored. */
  lemma HashKeepsKeyOpen(st: LoadState, k: string, v: string, c: string)
    requires Idle(st.lx) && AllPlain(k) && AllPlain(v)
    ensures var r := LoadLine(st, k + " = " + v + "#" + c + "\n", 0);
      r.NextLine? && r.st.store == st.store && r.st.section == st.section && r.st.lx.line == st.lx.line
      && r.st.lx.flag.key && !r.st.lx.flag.escape && r.st.lx.key == Lower(TrimSpace(k)) && r.st.lx.last == st.lx.line
  {
    var txt := k + " = " + v + "#" + c + "\n";
    MarkText(k, v, '#', c);
    assert AllPlain(" " + v);
    AssignedRun(st, txt, k, " " + v, |k| + 3 + |v|);
  }

  /** A second `=` while the key is open is a syntax error on that line. */
  lemma SecondAssignFails(st: LoadState, k: string, v: string, c: string)
    requires Idle(st.lx) && AllPlain(k) && AllPlain(v)
    ensures LoadLine(st, k + " = " + v + "=" + c + "\n", 0) == Fail(st.store, st.lx.line)
  {
    var txt := k + " = " + v + "=" + c + "\n";
    MarkText(k, v, '=', c);
    assert AllPlain(" " + v);
    AssignedRun(st, txt, k, " " + v, |k| + 3 + |v|);
  }

  /** A `[` while a key is open is a syntax error at the line of the last `=`,
      `,` or commit, not at the current line. */
  lemma BracketWithKeyOpen(st: LoadState, txt: string)
    requires st.lx.flag.key && !st.lx.flag.escape && txt != [] && txt[0] == '['
    ensures LoadLine(st, txt, 0) == Fail(st.store, st.lx.last)
  {
  }

  /** A `,` with no key open is a syntax error on that line. */
  lemma CommaWithoutKey(st: LoadState, v: string, c: string)
    requires !st.lx.flag.key && !st.lx.flag.escape && AllPlain(v)
    ensures LoadLine(st, v + "," + c + "\n", 0) == Fail(st.store, st.lx.line)
  {
    var txt := v + "," + c + "\n";
    assert txt[0..|v|] == v && txt[|v|] == ',';
    RunOf(st, txt, 0, |v|, v);
  }

  /** A line that ends with no key open (and no `#` or header before its end)
      is a syntax error on that line. */
  lemma NewlineWithoutKey(st: LoadState, v: string)
    requires !st.lx.flag.key && !st.lx.flag.escape && AllPlain(v)
    ensures LoadLine(st, v + "\n", 0) == Fail(st.store, st.lx.line)
  {
    var txt := v + "\n";
    assert txt[0..|v|] == v && txt[|v|] == '\n';
    LoadRun(st, txt, 0, |v|);
  }

  lemma BackslashText(k: string, v: string)
    ensures var txt := k + " = " + v + "\\\n";
      AssignAt(txt, k, " " + v) && txt[|k| + 3 + |v|] == '\\' && |k| + 3 + |v| == |txt| - 2
  {
    var txt := k + " = " + v + "\\\n";
    assert txt == (k + " ") + ("=" + ((" " + v) + "\\\n"));
    AssignText(txt, k, " " + v, "\\\n");
  }

  /** A backslash right before the newline escapes it while the buffer holds
      text (at least the backslash itself): a syntax error on that line. */
  lemma BackslashBeforeNewline(st: LoadState, k: string, v: string)
    requires Idle(st.lx) && AllPlain(k) && AllPlain(v)
    ensures LoadLine(st, k + " = " + v + "\\\n", 0) == Fail(st.store, st.lx.line)
  {
    BackslashText(k, v);
    BackslashAt(st, k + " = " + v + "\\\n", k, v);
  }

  lemma BackslashAt(st: LoadState, txt: string, k: string, v: string)
    requires Idle(st.lx) && AllPlain(k) && AllPlain(v)
    requires AssignAt(txt, k, " " + v) && txt[|k| + 3 + |v|] == '\\' && |k| + 3 + |v| == |txt| - 2
    ensures LoadLine(st, txt, 0) == Fail(st.store, st.lx.line)
  {
    assert AllPlain(" " + v);
    var j := |k| + 3 + |v|;
    var st2 := st.(lx := Keyed(st.lx, k, SkipBlanks(" " + v)));
    assert LoadLine(st, txt, 0) == LoadLine(st2, txt, j) by {
      AssignedRun(st, txt, k, " " + v, j);
    }
    assert LoadLine(st2, txt, j) == Fail(st.store, st.lx.line) by {
      BackslashStep(st2, txt, j);
    }
  }

  /** A backslash as the last character before the newline. */
  lemma BackslashStep(st: LoadState, txt: string, j: nat)
    requires j + 2 == |txt| && txt[j] == '\\' && !st.lx.flag.escape
    ensures LoadLine(st, txt, j) == Fail(st.store, st.lx.line)
  {
    var lx1 := st.lx.(flag := st.lx.flag.(escape := true, comma := false), buf := st.lx.buf + ['\\']);
    assert LoadLine(st, txt, j) == LoadLine(st.(lx := lx1), txt, j + 1);
  }

  lemma EscapedText(k: string, a: string, b: string)
    ensures var txt := k + " = " + a + "\\," + b + "\n";
      AssignAt(txt, k, " " + a) && txt[|k| + 3 + |a|..] == "\\," + b + "\n"
  {
    var txt := k + " = " + a + "\\," + b + "\n";
    assert txt == (k + " ") + ("=" + ((" " + a) + ("\\," + b + "\n")));
    AssignText(txt, k, " " + a, "\\," + b + "\n");
  }

  /** An escaped comma does not split the value: the backslash and the comma
      both stay in it. */
  lemma EscapedCommaKept(st: LoadState, k: string, a: string, b: string)
    requires Idle(st.lx) && st.lx.val == [] && AllPlain(k) && AllPlain(a) && AllPlain(b) && st.section in st.store
    ensures LoadLine(st, k + " = " + a + "\\," + b + "\n", 0) ==
      NextLine(LoadState(st.lx.(flag := st.lx.flag.(header := false), key := Lower(TrimSpace(k)), last := st.lx.line),
                         st.section, st.store[st.section := st.store[st.section][Lower(TrimSpace(k)) := [TrimSpace(a + "\\," + b)]]]))
  {
    EscapedText(k, a, b);
    EscapedAt(st, k + " = " + a + "\\," + b + "\n", k, a, b);
  }

  lemma EscapedAt(st: LoadState, txt: string, k: string, a: string, b: string)
    requires Idle(st.lx) && st.lx.val == [] && AllPlain(k) && AllPlain(a) && AllPlain(b) && st.section in st.store
    requires AssignAt(txt, k, " " + a) && txt[|k| + 3 + |a|..] == "\\," + b + "\n"
    ensures LoadLine(st, txt, 0) ==
      NextLine(LoadState(st.lx.(flag := st.lx.flag.(header := false), key := Lower(TrimSpace(k)), last := st.lx.line),
                         st.section, st.store[st.section := st.store[st.section][Lower(TrimSpace(k)) := [TrimSpace(a + "\\," + b)]]]))
  {
    assert AllPlain(" " + a);
    var j := |k| + 3 + |a|;
    AssignedRun(st, txt, k, " " + a, j);
    EscapedTail(st, txt, j, k, a, b);
  }

  /** After the assignment: the escaped comma, the rest of the value and the
      commit. */
  lemma EscapedTail(st: LoadState, txt: string, j: nat, k: string, a: string, b: string)
    requires Idle(st.lx) && st.lx.val == [] && AllPlain(b) && st.section in st.store
    requires j <= |txt| && txt[j..] == "\\," + b + "\n"
    ensures LoadLine(st.(lx := Keyed(st.lx, k, SkipBlanks(" " + a))), txt, j) ==
      NextLine(LoadState(st.lx.(flag := st.lx.flag.(header := false), key := Lower(TrimSpace(k)), last := st.lx.line),
                         st.section, st.store[st.section := st.store[st.section][Lower(TrimSpace(k)) := [TrimSpace(a + "\\," + b)]]]))
  {
    var lx3 := Keyed(st.lx, k, SkipBlanks(" " + a));
    var lx := lx3.(flag := lx3.flag.(header := false, key := false), buf := [], val := [], last := lx3.line);
    var value := TrimSpace(lx3.buf + "\\," + b);
    assert LoadLine(st.(lx := lx3), txt, j) ==
      NextLine(LoadState(lx, st.section, st.store[st.section := st.store[st.section][lx3.key := lx3.val + [value]]])) by {
      EscapedValue(st.(lx := lx3), txt, j, b);
    }
    assert lx == st.lx.(flag := st.lx.flag.(header := false), key := Lower(TrimSpace(k)), last := st.lx.line);
    assert value == TrimSpace(a + "\\," + b) by {
      EscapedTrim(a, b);
    }
    assert lx3.val + [value] == [value];
    assert lx3.key == Lower(TrimSpace(k));
  }

  /** An escaped comma, the plain text b and the newline: the value is the
      buffer with the backslash, the comma and b behind it, and it is committed. */
  lemma EscapedValue(st: LoadState, txt: string, j: nat, b: string)
    requires st.lx.flag.key && !st.lx.flag.escape && !st.lx.flag.comma && st.section in st.store
    requires AllPlain(b) && j <= |txt| && txt[j..] == "\\," + b + "\n"
    ensures var lx := st.lx;
      LoadLine(st, txt, j) ==
        NextLine(LoadState(lx.(flag := lx.flag.(header := false, key := false), buf := [], val := [], last := lx.line),
                           st.section, st.store[st.section := st.store[st.section][lx.key := lx.val + [TrimSpace(lx.buf + "\\," + b)]]]))
  {
    var e := |txt| - 1;
    assert txt[j] == '\\' && txt[j + 1] == ',' && txt[j + 2..e] == b && txt[e] == '\n';
    var lx4 := st.lx.(buf := st.lx.buf + "\\,");
    var lx5 := st.lx.(buf := st.lx.buf + "\\," + b);
    EscapeStep(st, txt, j);
    assert lx4 == st.lx.(buf := st.lx.buf + "\\,", flag := st.lx.flag.(comma := false));
    LoadRun(st.(lx := lx4), txt, j + 2, e);
    OrdinariesAppend(lx4, b);
    assert Ordinaries(lx4, b) == lx5;
    CommitStep(st.(lx := lx5), txt);
  }

  /** A backslash and the comma it escapes both go into the buffer. */
  lemma EscapeStep(st: LoadState, txt: string, j: nat)
    requires j + 2 < |txt| && txt[j] == '\\' && txt[j + 1] == ',' && !st.lx.flag.escape
    ensures LoadLine(st, txt, j) ==
      LoadLine(st.(lx := st.lx.(buf := st.lx.buf + "\\,", flag := st.lx.flag.(comma := false))), txt, j + 2)
  {
    var lx1 := st.lx.(flag := st.lx.flag.(escape := true, comma := false), buf := st.lx.buf + ['\\']);
    assert LoadLine(st, txt, j) == LoadLine(st.(lx := lx1), txt, j + 1);
    assert st.lx.buf + ['\\'] + [','] == st.lx.buf + "\\,";
  }

  /** Trimming the value of an escaped comma line: the blank after `=` and any
      blanks the buffer skipped are forgotten. */
  lemma EscapedTrim(a: string, b: string)
    ensures TrimSpace(SkipBlanks(" " + a) + "\\," + b) == TrimSpace(a + "\\," + b)
  {
    var w := "\\," + b;
    var s := (" " + a) + w;
    calc {
      TrimSpace(SkipBlanks(" " + a) + "\\," + b);
      { Assoc(SkipBlanks(" " + a), "\\,", b); }
      TrimSpace(SkipBlanks(" " + a) + w);
      { SkipBlanksTrim(" " + a, w); }
      TrimSpace(s);
      { assert s[0] == ' ' && IsSpace(s[0]); TrimSpaceDropsLeading(s, 1); }
      TrimSpace(s[1..]);
      { DropFirst(a, w); Assoc(a, "\\,", b); }
      TrimSpace(a + "\\," + b);
    }
  }

  /** Concatenation is associative. */
  lemma Assoc<T>(x: seq<T>, y: seq<T>, z: seq<T>)
    ensures x + y + z == x + (y + z)
  {
  }

  lemma DropFirst(a: string, w: string)
    ensures ((" " + a) + w)[1..] == a + w
  {
  }

  /** Empty lines and lines that start with `#` are skipped, but counted. */
  lemma {:induction false} SkippedLines(st: LoadState, skipped: seq<string>, rest: seq<string>)
    requires !st.lx.flag.escape
    requires forall i :: 0 <= i < |skipped| ==> skipped[i] == [] || skipped[i][0] == '#'
    ensures LoadLines(st, skipped + rest) == LoadLines(st.(lx := st.lx.(line := st.lx.line + |skipped|)), rest)
    decreases |skipped|
  {
    if skipped != [] {
      assert (skipped + rest)[1..] == skipped[1..] + rest;
      var st1 := st.(lx := st.lx.(line := st.lx.line + 1));
      var txt := skipped[0] + "\n";
      assert (skipped + rest)[0] == skipped[0];
      if skipped[0] != [] {
        assert txt[0] == '#';
        assert LoadLine(st1, txt, 0) == NextLine(st1);
      }
      SkippedLines(st1, skipped[1..], rest);
    } else {
      assert skipped + rest == rest;
      assert st.(lx := st.lx.(line := st.lx.line + |skipped|)) == st;
    }
  }

  /** A key before any section header writes through a missing section map. */
  lemma KeyBeforeSection(k: string, v: string, rest: seq<string>)
    requires AllPlain(k) && AllPlain(v)
    ensures LoadSpec([k + " = " + v] + rest) == Aborted
  {
    var st1 := Start.(lx := Start.lx.(line := 1));
    AssignLine(st1, k, v, false);
    assert ([k + " = " + v] + rest)[0] + "\n" == k + " = " + v + "\n";
  }

  /** A non-empty line that Load finishes with NextLine: Load goes on with
      the next line from the state it reached. */
  lemma NextLines(st: LoadState, lines: seq<string>, st2: LoadState)
    requires lines != [] && lines[0] != []
    requires LoadLine(st.(lx := st.lx.(line := st.lx.line + 1)), lines[0] + "\n", 0) == NextLine(st2)
    ensures LoadLines(st, lines) == LoadLines(st2, lines[1..])
  {
  }

  /** A file that ends while a key is open, here after a trailing comma on its
      last line, fails at the line of the last `=`, `,` or commit. */
  lemma OpenAtEndOfFile(name: string, k: string, v: string)
    requires AllPlain(k) && AllPlain(v)
    ensures LoadSpec(["[" + name + "]", k + " = " + v + ","]) == Failed(map[Lower(name) := map[]], 2)
  {
    var lines := ["[" + name + "]", k + " = " + v + ","];
    var st2 := OpenHeader(name, lines);
    OpenAssign(st2, k, v, lines[1..]);
  }

  /** The header line of the two-line file. */
  lemma OpenHeader(name: string, lines: seq<string>) returns (st2: LoadState)
    requires |lines| == 2 && lines[0] == "[" + name + "]"
    ensures st2.store == map[Lower(name) := map[]] && st2.section == Lower(name)
    ensures st2.lx.line == 1 && !st2.lx.flag.key && !st2.lx.flag.escape && !st2.lx.flag.comma
    ensures st2.lx.buf == [] && st2.lx.val == []
    ensures LoadLines(Start, lines) == LoadLines(st2, lines[1..])
  {
    var st1 := Start.(lx := Start.lx.(line := 1));
    st2 := LoadState(st1.lx.(flag := st1.lx.flag.(header := true), last := 1), Lower(name), map[Lower(name) := map[]]);
    assert lines[0] + "\n" == "[" + name + "]\n";
    HeaderLine(st1, name);
    NextLines(Start, lines, st2);
  }

  /** The assignment line with its trailing comma, then the end of the file. */
  lemma OpenAssign(st2: LoadState, k: string, v: string, rest: seq<string>)
    requires Idle(st2.lx) && st2.lx.val == [] && AllPlain(k) && AllPlain(v)
    requires rest == [k + " = " + v + ","]
    ensures LoadLines(st2, rest) == Failed(st2.store, st2.lx.line + 1)
  {
    var st3 := st2.(lx := st2.lx.(line := st2.lx.line + 1));
    var lx := st3.lx;
    var st4 := st3.(lx := lx.(flag := lx.flag.(key := true), key := Lower(TrimSpace(k)), val := [TrimSpace(v)], last := lx.line));
    assert LoadLine(st3, rest[0] + "\n", 0) == NextLine(st4) by {
      assert rest[0] + "\n" == k + " = " + v + ",\n";
      AssignLine(st3, k, v, true);
    }
    assert LoadLines(st2, rest) == LoadLines(st4, []) by {
      assert rest[1..] == [];
      NextLines(st2, rest, st4);
    }
  }
}
