/** What the full-file parser (Load) and the section extractor (ReadFile) of
    cfg.go share: the flag word, the error values, the setKey/addVal helpers
    and the character branches that both of their switch statements contain. */
module Syntax {
  import opened Strings

  datatype Option<T> = None | Some(value: T)

  /** The parser's flag word (cfg.go:36-41): four independent bits, here four
      booleans. `header`: a section header has been read; `key`: an `=` has been
      read and the key awaits its values; `comma`: the last value ended with a
      comma, so the list continues; `escape`: the previous character was a
      backslash and the next one is taken literally. */
  datatype Flags = Flags(header: bool, key: bool, comma: bool, escape: bool)

  const NoFlags := Flags(false, false, false, false)

  /** section -> key -> values, the store's nested map. */
  type Sections = map<string, map<string, seq<string>>>

  /** The store's invariant: every section name and every key is case-folded,
      since Load and Set fold a name before it becomes a map key. */
  predicate Folded(m: Sections) {
    forall s :: s in m ==> Lower(s) == s && forall k :: k in m[s] ==> Lower(k) == k
  }

  /** Every key present in the store has at least one value: Load commits a key
      only together with the value addVal has just appended. */
  predicate NonEmptyLists(m: Sections) {
    forall s :: s in m ==> forall k :: k in m[s] ==> m[s][k] != []
  }

  /** The errors the engine reports. `SyntaxError` is what cfgErr builds (the
      file name and a 1-based line number); `Panic` stands for the run-time panic
      of an assignment into a missing (nil) section map. */
  datatype CfgError =
    | SyntaxError(file: string, line: nat)
    | InvalidChar(ch: char, value: string)
    | IoError(path: string)
    | Panic

  /** setKey: the buffered text becomes a key, trimmed and case-folded. */
  function SetKey(buf: string): (key: string)
    ensures |key| <= |buf|
  {
    Lower(TrimSpace(buf))
  }

  /** A key holds no upper-case letter and no white space at either end, so
      setKey leaves a key unchanged. */
  lemma SetKeyNormal(buf: string)
    ensures var key := SetKey(buf);
      (forall i :: 0 <= i < |key| ==> !IsUpper(key[i]))
      && (key == [] || (!IsSpace(key[0]) && !IsSpace(key[|key| - 1])))
      && SetKey(key) == key
  {
    var t := TrimSpace(buf);
    var key := Lower(t);
    TrimSpaceEnds(buf);
    if key != [] {
      LowerKeepsSpace(t[0]);
      LowerKeepsSpace(t[|t| - 1]);
    }
    TrimSpaceOfTrimmed(key);
    LowerIdempotent(t);
  }

  /** addVal: the buffered text, trimmed, is appended to the pending values. */
  function AddVal(buf: string, val: seq<string>): (r: seq<string>)
    ensures |r| == |val| + 1 && r[..|val|] == val
  {
    val + [TrimSpace(buf)]
  }

  /** The value addVal appends has no white space at either end. */
  lemma AddValTrimmed(buf: string, val: seq<string>)
    ensures var v := AddVal(buf, val)[|val|];
      (v == [] || (!IsSpace(v[0]) && !IsSpace(v[|v| - 1]))) && TrimSpace(v) == v
  {
    assert AddVal(buf, val)[|val|] == TrimSpace(buf);
    TrimSpaceEnds(buf);
    TrimSpaceOfTrimmed(TrimSpace(buf));
  }

  /** The scanning state both parsers keep: the flag word, the byte buffer, the
      pending value list, the current key, the 1-based number of the line being
      read and `last`, the line of the last `=`, `,` or commit. */
  datatype Lexer = Lexer(flag: Flags, buf: string, val: seq<string>, key: string, line: nat, last: nat)

  /** The outcome of one character: the next state, or a syntax error at a line. */
  datatype Lexed = Lexed(lx: Lexer) | LexError(line: nat)

  /** A character read while ESCAPE is set is kept literally, except that the
      line's final newline with text in the buffer is an error. */
  function Escaped(lx: Lexer, ch: char, atEnd: bool): (r: Lexed)
    requires lx.flag.escape
    ensures r.Lexed? <==> !(atEnd && lx.buf != [])
    ensures r.Lexed? ==> r.lx.buf == lx.buf + [ch] && !r.lx.flag.escape
    ensures r.LexError? ==> r.line == lx.line
  {
    if atEnd && |lx.buf| != 0 then LexError(lx.line)
    else Lexed(lx.(buf := lx.buf + [ch], flag := lx.flag.(escape := false)))
  }

  /** `=`: opens a key, unless one is open already. */
  function Assign(lx: Lexer): (r: Lexed)
    ensures r.LexError? <==> lx.flag.key
    ensures r.LexError? ==> r.line == lx.line
    ensures r.Lexed? ==> r.lx.flag.key && r.lx.buf == [] && r.lx.key == Lower(TrimSpace(lx.buf))
  {
    if lx.flag.key then LexError(lx.line)
    else Lexed(lx.(flag := lx.flag.(key := true), key := SetKey(lx.buf), buf := [], last := lx.line))
  }

  /** `,`: the buffer becomes one more value, and the list may continue on the
      next line; without an open key it is an error. */
  function Separate(lx: Lexer): (r: Lexed)
    ensures r.LexError? <==> !lx.flag.key
    ensures r.LexError? ==> r.line == lx.line
    ensures r.Lexed? ==> r.lx.val == lx.val + [TrimSpace(lx.buf)] && r.lx.buf == [] && r.lx.flag.comma
  {
    if !lx.flag.key then LexError(lx.line)
    else Lexed(lx.(val := AddVal(lx.buf, lx.val), buf := [], last := lx.line, flag := lx.flag.(comma := true)))
  }

  /** The default branch: blanks in front of an empty buffer are skipped, any
      other character is buffered and ends a pending continuation. */
  function Ordinary(lx: Lexer, ch: char, atEnd: bool): (r: Lexed)
    ensures lx.buf == [] && (ch == ' ' || ch == '\t') ==> r == Lexed(lx)
    ensures r.LexError? ==> atEnd && lx.buf != [] && r.line == lx.line
    ensures !(lx.buf == [] && (ch == ' ' || ch == '\t')) && r.Lexed? ==>
              r.lx.buf == lx.buf + [ch] && !r.lx.flag.comma
  {
    if |lx.buf| == 0 && (ch == ' ' || ch == '\t') then Lexed(lx)
    else if atEnd && |lx.buf| != 0 then LexError(lx.line)
    else Lexed(lx.(flag := lx.flag.(comma := false), buf := lx.buf + [ch]))
  }

  /** `\`: sets ESCAPE and falls through to the default branch. */
  function Backslash(lx: Lexer, atEnd: bool): (r: Lexed)
    ensures r.Lexed? ==> r.lx.flag.escape && r.lx.buf == lx.buf + ['\\']
  {
    Ordinary(lx.(flag := lx.flag.(escape := true)), '\\', atEnd)
  }
}
