/** What Load reads back from a file that Create made and Set then wrote: the
    section, and under the key the values up to the first empty one, each
    trimmed. Set's own store keeps the values as given, so the two agree
    exactly when the values are trimmed and none is empty. */
module RoundTrip {
  import opened Strings
  import opened Syntax
  import opened Parser
  import opened Writer
  import opened LoadFacts
  import opened SeekFacts
  import opened Cfg

  /** Each value trimmed, as addVal stores it. */
  function Trimmed(vs: seq<string>): (r: seq<string>)
    ensures |r| == |vs|
    decreases |vs|
  {
    if vs == [] then [] else [TrimSpace(vs[0])] + Trimmed(vs[1..])
  }

  /** The lines of a value list after its first line: each value behind n
      blanks, every line but the last ending in a comma. */
  predicate ListLines(lines: seq<string>, n: nat, vs: seq<string>) {
    |lines| == |vs| && forall j :: 0 <= j < |vs| ==> lines[j] == Blanks(n) + vs[j] + (if j < |vs| - 1 then "," else "")
  }

  /** The lines after the first of a list are the list of the later values. */
  lemma ListLinesTail(lines: seq<string>, n: nat, vs: seq<string>)
    requires ListLines(lines, n, vs) && |vs| > 1
    ensures ListLines(lines[1..], n, vs[1..])
  {
    forall j | 0 <= j < |vs| - 1
      ensures lines[1..][j] == Blanks(n) + vs[1..][j] + (if j < |vs| - 2 then "," else "")
    {
      assert lines[j + 1] == Blanks(n) + vs[j + 1] + (if j + 1 < |vs| - 1 then "," else "");
    }
  }

  /** The first value and the rest, trimmed. */
  lemma TrimmedCons(val: seq<string>, vs: seq<string>)
    requires vs != []
    ensures val + [TrimSpace(vs[0])] + Trimmed(vs[1..]) == val + Trimmed(vs)
  {
    var a, t := [TrimSpace(vs[0])], Trimmed(vs[1..]);
    assert Trimmed(vs) == a + t;
    Assoc(val, a, t);
  }

  /** The continuation lines of a list: each adds its trimmed value, and the
      last one, without a comma, stores the whole list under the open key. */
  lemma {:induction false} ContinuationLines(st: LoadState, n: nat, vs: seq<string>, lines: seq<string>)
    requires Opened(st.lx) && st.section in st.store && n > 0 && vs != []
    requires ListLines(lines, n, vs) && forall j :: 0 <= j < |vs| ==> AllPlain(vs[j])
    ensures LoadLines(st, lines) == Loaded(st.store[st.section := st.store[st.section][st.lx.key := st.lx.val + Trimmed(vs)]])
    decreases |vs|
  {
    var st1 := st.(lx := st.lx.(line := st.lx.line + 1));
    var lx := st1.lx;
    var comma := |vs| > 1;
    assert lines[0] + "\n" == Blanks(n) + vs[0] + (if comma then ",\n" else "\n") && lines[0] != [];
    if comma {
      var st2 := st1.(lx := lx.(val := lx.val + [TrimSpace(vs[0])], last := lx.line));
      assert LoadLines(st, lines) == LoadLines(st2, lines[1..]) by {
        ContinuationLine(st1, n, vs[0], true);
        NextLines(st, lines, st2);
      }
      ListLinesTail(lines, n, vs);
      ContinuationLines(st2, n, vs[1..], lines[1..]);
      TrimmedCons(st.lx.val, vs);
    } else {
      var store := st.store[st.section := st.store[st.section][lx.key := lx.val + [TrimSpace(vs[0])]]];
      var st2 := LoadState(lx.(flag := lx.flag.(header := false, key := false), val := [], last := lx.line), st.section, store);
      assert LoadLines(st, lines) == LoadLines(st2, []) by {
        ContinuationLine(st1, n, vs[0], false);
        NextLines(st, lines, st2);
        assert lines[1..] == [];
      }
      assert Trimmed(vs) == [TrimSpace(vs[0])];
    }
  }

  /** The key's lines as the writer joins them: `key = v0`, then the later
      values behind |key| + 3 blanks, every line but the last with a comma. */
  lemma KeyLinesShape(key: string, vs: seq<string>)
    requires vs != []
    ensures var lines := Commas(KeyLines(key, vs));
      lines[0] == key + " = " + vs[0] + (if |vs| > 1 then "," else "")
      && ListLines(lines[1..], |key| + 3, vs[1..])
  {
    var lines := Commas(KeyLines(key, vs));
    forall j | 0 <= j < |vs| - 1
      ensures lines[1..][j] == Blanks(|key| + 3) + vs[1..][j] + (if j < |vs| - 2 then "," else "")
    {
      assert lines[j + 1] == KeyLines(key, vs)[j + 1] + (if j + 1 < |vs| - 1 then "," else "");
    }
  }

  /** The values of a non-empty list stored under its key: the first on the
      assignment line, the rest on continuation lines. */
  lemma KeyBlock(st: LoadState, key: string, vs: seq<string>)
    requires Idle(st.lx) && st.lx.val == [] && st.section in st.store && vs != []
    requires AllPlain(key) && forall j :: 0 <= j < |vs| ==> AllPlain(vs[j])
    ensures LoadLines(st, Commas(KeyLines(key, vs)))
            == Loaded(st.store[st.section := st.store[st.section][Lower(TrimSpace(key)) := Trimmed(vs)]])
  {
    var lines := Commas(KeyLines(key, vs));
    var comma := |vs| > 1;
    KeyLinesShape(key, vs);
    var st1 := st.(lx := st.lx.(line := st.lx.line + 1));
    var lx := st1.lx;
    var k := Lower(TrimSpace(key));
    assert lines[0] + "\n" == key + " = " + vs[0] + (if comma then ",\n" else "\n") && lines[0] != [];
    if comma {
      var st2 := st1.(lx := lx.(flag := lx.flag.(key := true), key := k, val := [TrimSpace(vs[0])], last := lx.line));
      assert LoadLines(st, lines) == LoadLines(st2, lines[1..]) by {
        AssignLine(st1, key, vs[0], true);
        NextLines(st, lines, st2);
      }
      ContinuationLines(st2, |key| + 3, vs[1..], lines[1..]);
      assert st2.lx.val + Trimmed(vs[1..]) == Trimmed(vs) by {
        TrimmedCons([], vs);
        assert [] + [TrimSpace(vs[0])] == st2.lx.val && [] + Trimmed(vs) == Trimmed(vs);
      }
      assert st2.store == st.store && st2.section == st.section && st2.lx.key == k;
    } else {
      var store := st.store[st.section := st.store[st.section][k := [TrimSpace(vs[0])]]];
      var st2 := LoadState(lx.(flag := lx.flag.(header := false), key := k, last := lx.line), st.section, store);
      assert LoadLines(st, lines) == LoadLines(st2, []) by {
        AssignLine(st1, key, vs[0], false);
        NextLines(st, lines, st2);
        assert lines[1..] == [];
      }
      assert LoadLines(st2, []) == Loaded(store);
      assert Trimmed(vs) == [TrimSpace(vs[0])];
    }
  }

  /** What Load reads from the file: the section, and the key with the
      trimmed values before the first empty one (no key for none). */
  function Reloaded(section: string, key: string, value: seq<string>): Sections {
    if NonEmptyPrefix(value) == [] then map[Lower(section) := map[]]
    else map[Lower(section) := map[Lower(TrimSpace(Lower(key))) := Trimmed(NonEmptyPrefix(value))]]
  }

  /** A key added to the empty map of the only section. */
  lemma SingleEntry(s: string, k: string, vs: seq<string>)
    ensures var m: Sections := map[s := map[]]; m[s := m[s][k := vs]] == map[s := map[k := vs]]
  {
    var m: Sections := map[s := map[]];
    var e: map<string, seq<string>> := map[];
    assert m[s] == e;
    assert e[k := vs] == map[k := vs];
  }

  /** No line Create writes is the header of any section. */
  lemma CommentsNoHeader(comment: seq<string>, section: string)
    ensures forall j :: 0 <= j < |comment| ==> !IsHeaderOf(Lower(Commented(comment)[j]), section)
    ensures forall j :: 0 <= j < |comment| ==> Commented(comment)[j] != [] && Commented(comment)[j][0] == '#'
  {
    forall j | 0 <= j < |comment|
      ensures !IsHeaderOf(Lower(Commented(comment)[j]), section)
    {
      var l := Commented(comment)[j];
      assert l[0] == '#';
      assert Lower(l)[0] == '#';
    }
  }

  /** The file Set writes over the one Create made: the comments, then the
      new section at the end. */
  lemma CreatedThenSet(comment: seq<string>, section: string, key: string, value: seq<string>)
    ensures SetFileSpec(Commented(comment), section, key, value)
            == (Commented(comment) + [""]) + (["[" + Lower(section) + "]"] + Commas(KeyLines(Lower(key), NonEmptyPrefix(value))))
  {
    CommentsNoHeader(comment, Lower(section));
    SetFileNewSection(Commented(comment), section, key, value);
  }

  /** Load passes over the comments and the empty line, counting them. */
  lemma SkipComments(comment: seq<string>, rest: seq<string>)
    ensures LoadSpec((Commented(comment) + [""]) + rest) == LoadLines(Start.(lx := Start.lx.(line := |comment| + 1)), rest)
  {
    var skipped := Commented(comment) + [""];
    CommentsNoHeader(comment, []);
    assert forall i :: 0 <= i < |skipped| ==> skipped[i] == [] || skipped[i][0] == '#';
    SkippedLines(Start, skipped, rest);
  }

  /** The header line of the new section opens it with an empty map. */
  lemma NewHeader(st0: LoadState, section: string, kl: seq<string>)
    requires st0 == Start.(lx := Start.lx.(line := st0.lx.line))
    ensures var lx := st0.lx.(line := st0.lx.line + 1);
      LoadLines(st0, ["[" + Lower(section) + "]"] + kl)
      == LoadLines(LoadState(lx.(flag := lx.flag.(header := true), last := lx.line), Lower(section), map[Lower(section) := map[]]), kl)
  {
    var s := Lower(section);
    var st1 := st0.(lx := st0.lx.(line := st0.lx.line + 1));
    var rest := ["[" + s + "]"] + kl;
    HeaderLine(st1, s);
    LowerIdempotent(section);
    assert rest[0] + "\n" == "[" + s + "]\n" && rest[1..] == kl;
    NextLines(st0, rest, LoadState(st1.lx.(flag := st1.lx.flag.(header := true), last := st1.lx.line), s, map[s := map[]]));
  }

  /** Create, then Set (its file half), then Load: the file Load reads holds
      the comments, an empty line, the new section's header and the key's
      lines, and Load finds the section with the key's trimmed values. A
      newline in a comment or in the section name would make the program's
      file hold more lines than the model's, so neither holds one. */
  lemma CreateSetLoad(comment: seq<string>, section: string, key: string, value: seq<string>)
    requires AllPlain(Lower(key)) && forall j :: 0 <= j < |value| ==> AllPlain(value[j])
    requires '\n' !in section && forall j :: 0 <= j < |comment| ==> '\n' !in comment[j]
    ensures LoadSpec(SetFileSpec(Commented(comment), section, key, value)) == Loaded(Reloaded(section, key, value))
  {
    var s, k, vs := Lower(section), Lower(key), NonEmptyPrefix(value);
    var kl := Commas(KeyLines(k, vs));
    var st0 := Start.(lx := Start.lx.(line := |comment| + 1));
    var lx := st0.lx.(line := st0.lx.line + 1);
    var st2 := LoadState(lx.(flag := lx.flag.(header := true), last := lx.line), s, map[s := map[]]);
    assert LoadSpec(SetFileSpec(Commented(comment), section, key, value)) == LoadLines(st2, kl) by {
      CreatedThenSet(comment, section, key, value);
      SkipComments(comment, ["[" + s + "]"] + kl);
      NewHeader(st0, section, kl);
    }
    if vs == [] {
      assert kl == [];
    } else {
      var kk := Lower(TrimSpace(k));
      assert Reloaded(section, key, value) == map[s := map[kk := Trimmed(vs)]];
      assert forall j :: 0 <= j < |vs| ==> AllPlain(vs[j]) by {
        forall j | 0 <= j < |vs|
          ensures AllPlain(vs[j])
        {
          assert vs[j] == value[j];
        }
      }
      KeyBlock(st2, k, vs);
      SingleEntry(s, kk, Trimmed(vs));
    }
  }
}
