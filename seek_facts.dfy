/** Where SetFile (cfg.go:351-541) puts the block of a key, read off the lines
    of the file: it replaces the key's lines when the section holds the key,
    goes right after the section's header when another section follows, at the
    end of the file otherwise, and a new section with its header goes at the
    end. Every other line is copied as it was. */
module SeekFacts {
  import opened Strings
  import opened Syntax
  import opened Writer

  /** cfgSeek's flags once the section's header was found, and once the key
      was found in it. */
  const InSection := Flags(true, false, false, false)
  const KeyFound := Flags(true, true, false, false)

  /** A section line cfgSeek passes over while it looks for the key. */
  predicate PassedOver(b: string, key: string) {
    Ignored(b) || (b[0] != '[' && !IsKeyLine(b, key))
  }

  /** The line that opens the key's lines. */
  predicate Opens(b: string, key: string) {
    !Ignored(b) && b[0] != '[' && IsKeyLine(b, key)
  }

  /** A line inside the key's list that does not end it. */
  predicate Continues(b: string) {
    Ignored(b) || (b[0] != '[' && !EndsWithoutComma(b))
  }

  /** The line that ends the key's list: no comma at its end. */
  predicate Ends(b: string) {
    !Ignored(b) && b[0] != '[' && EndsWithoutComma(b)
  }

  /** A line that starts another section (or any bracketed line). */
  predicate Bracket(b: string) {
    !Ignored(b) && b[0] == '['
  }

  /** The section's header is the line at index h, the first one that is. */
  predicate FirstHeader(lines: seq<string>, section: string, h: nat) {
    h < |lines| && IsHeaderOf(Lower(lines[h]), section)
    && forall j :: 0 <= j < h ==> !IsHeaderOf(Lower(lines[j]), section)
  }

  /** A header line is neither empty nor a comment. */
  lemma HeaderNotIgnored(b: string, section: string)
    requires IsHeaderOf(b, section)
    ensures !Ignored(b) && b[0] == '['
  {
    assert b[0] == ("[" + section + "]")[0];
  }

  /** One line before the header that is not the header. */
  lemma SeekOutside(lines: seq<string>, section: string, key: string, n: nat, m: nat, upper: int, flag: Flags)
    requires n < |lines| && m == n + 1 && 0 <= upper <= n && !flag.header
    requires !IsHeaderOf(Lower(lines[n]), section)
    ensures SeekFrom(lines, section, key, n, upper, flag) == SeekFrom(lines, section, key, m, upper, flag)
  {
  }

  /** The header line itself. */
  lemma SeekHeader(lines: seq<string>, section: string, key: string, n: nat, m: nat, upper: int, flag: Flags)
    requires n < |lines| && m == n + 1 && 0 <= upper <= n && !flag.header
    requires IsHeaderOf(Lower(lines[n]), section)
    ensures SeekFrom(lines, section, key, n, upper, flag) == SeekFrom(lines, section, key, m, m, flag.(header := true))
  {
    HeaderNotIgnored(Lower(lines[n]), section);
  }

  /** One line of the section passed over while the key is not found. */
  lemma SeekPassed(lines: seq<string>, section: string, key: string, n: nat, m: nat, upper: int, flag: Flags)
    requires n < |lines| && m == n + 1 && 0 <= upper <= n && flag.header && !flag.key
    requires PassedOver(Lower(lines[n]), key)
    ensures SeekFrom(lines, section, key, n, upper, flag) == SeekFrom(lines, section, key, m, upper, flag)
  {
    var b := Lower(lines[n]);
    if !Ignored(b) {
      assert !IsKeyLine(b, key) && b[0] != '[';
    }
  }

  /** One line of the key's list that does not end it. */
  lemma SeekContinued(lines: seq<string>, section: string, key: string, n: nat, m: nat, upper: int, flag: Flags)
    requires n < |lines| && m == n + 1 && 0 <= upper <= n && flag.header && flag.key
    requires Continues(Lower(lines[n]))
    ensures SeekFrom(lines, section, key, n, upper, flag) == SeekFrom(lines, section, key, m, upper, flag)
  {
  }

  /** Before the header every line is passed over. */
  lemma {:induction false} SeekBefore(lines: seq<string>, section: string, key: string, n: nat, h: nat, upper: int, flag: Flags)
    requires n <= h < |lines| && 0 <= upper <= n && !flag.header
    requires forall j :: n <= j < h ==> !IsHeaderOf(Lower(lines[j]), section)
    requires IsHeaderOf(Lower(lines[h]), section)
    ensures SeekFrom(lines, section, key, n, upper, flag) == SeekFrom(lines, section, key, h + 1, h + 1, flag.(header := true))
    decreases h - n
  {
    var m := n + 1;
    var flag' := flag.(header := true);
    if n < h {
      assert SeekFrom(lines, section, key, n, upper, flag) == SeekFrom(lines, section, key, m, upper, flag) by {
        SeekOutside(lines, section, key, n, m, upper, flag);
      }
      assert SeekFrom(lines, section, key, m, upper, flag) == SeekFrom(lines, section, key, h + 1, h + 1, flag') by {
        SeekBefore(lines, section, key, m, h, upper, flag);
      }
    } else {
      SeekHeader(lines, section, key, n, m, upper, flag);
    }
  }

  /** Without the section's header cfgSeek runs to the end of the file. */
  lemma {:induction false} SeekAbsent(lines: seq<string>, section: string, key: string, n: nat, upper: int, flag: Flags)
    requires n <= |lines| && 0 <= upper <= n && !flag.header
    requires forall j :: n <= j < |lines| ==> !IsHeaderOf(Lower(lines[j]), section)
    ensures SeekFrom(lines, section, key, n, upper, flag) == Bounds(|lines|, -1, flag)
    decreases |lines| - n
  {
    if n < |lines| {
      var m := n + 1;
      assert SeekFrom(lines, section, key, n, upper, flag) == SeekFrom(lines, section, key, m, upper, flag) by {
        SeekOutside(lines, section, key, n, m, upper, flag);
      }
      assert SeekFrom(lines, section, key, m, upper, flag) == Bounds(|lines|, -1, flag) by {
        SeekAbsent(lines, section, key, m, upper, flag);
      }
    }
  }

  /** In the section, lines that neither start with `[` nor assign the key are
      passed over. */
  lemma {:induction false} SeekPassing(lines: seq<string>, section: string, key: string, n: nat, m: nat, upper: int, flag: Flags)
    requires n <= m <= |lines| && 0 <= upper <= n && flag.header && !flag.key
    requires forall j :: n <= j < m ==> PassedOver(Lower(lines[j]), key)
    ensures SeekFrom(lines, section, key, n, upper, flag) == SeekFrom(lines, section, key, m, upper, flag)
    decreases m - n
  {
    if n < m {
      var n' := n + 1;
      assert SeekFrom(lines, section, key, n, upper, flag) == SeekFrom(lines, section, key, n', upper, flag) by {
        SeekPassed(lines, section, key, n, n', upper, flag);
      }
      assert SeekFrom(lines, section, key, n', upper, flag) == SeekFrom(lines, section, key, m, upper, flag) by {
        SeekPassing(lines, section, key, n', m, upper, flag);
      }
    }
  }

  /** Once the key is found, its list runs to the first line without a comma
      at its end, one past which the rest of the file starts. */
  lemma {:induction false} SeekContinuing(lines: seq<string>, section: string, key: string, n: nat, q: nat, upper: int, flag: Flags)
    requires n <= q < |lines| && 0 <= upper <= n && flag.header && flag.key
    requires forall j :: n <= j < q ==> Continues(Lower(lines[j]))
    requires Ends(Lower(lines[q]))
    ensures SeekFrom(lines, section, key, n, upper, flag) == Bounds(upper, q + 2, flag)
    decreases q - n
  {
    if n < q {
      var m := n + 1;
      assert SeekFrom(lines, section, key, n, upper, flag) == SeekFrom(lines, section, key, m, upper, flag) by {
        SeekContinued(lines, section, key, n, m, upper, flag);
      }
      assert SeekFrom(lines, section, key, m, upper, flag) == Bounds(upper, q + 2, flag) by {
        SeekContinuing(lines, section, key, m, q, upper, flag);
      }
    }
  }

  /** The section is not in the file: an empty line, its header and the key's
      lines are appended at the end. */
  lemma SetFileNewSection(src: seq<string>, section: string, key: string, value: seq<string>)
    requires forall j :: 0 <= j < |src| ==> !IsHeaderOf(Lower(src[j]), Lower(section))
    ensures SetFileSpec(src, section, key, value)
            == src + ["", "[" + Lower(section) + "]"] + Commas(KeyLines(Lower(key), NonEmptyPrefix(value)))
  {
    SeekAbsent(src, Lower(section), Lower(key), 0, 0, NoFlags);
    BlockShape(Lower(section), Lower(key), value, false);
    assert src[..|src|] == src;
  }

  /** cfgSeek after the section's header at h and the lines passed over up to
      line m. */
  lemma SeekInSection(src: seq<string>, section: string, key: string, h: nat, m: nat)
    requires FirstHeader(src, section, h) && h < m <= |src|
    requires forall j :: h < j < m ==> PassedOver(Lower(src[j]), key)
    ensures SeekSpec(src, section, key) == SeekFrom(src, section, key, m, h + 1, InSection)
  {
    SeekBefore(src, section, key, 0, h, 0, NoFlags);
    SeekPassing(src, section, key, h + 1, m, h + 1, InSection);
  }

  /** cfgSeek at the line p that assigns the key, whose list ends at line q. */
  lemma SeekKey(src: seq<string>, section: string, key: string, p: nat, q: nat, upper: int)
    requires 0 <= upper <= p <= q < |src|
    requires Opens(Lower(src[p]), key)
    requires forall j :: p <= j < q ==> Continues(Lower(src[j]))
    requires Ends(Lower(src[q]))
    ensures SeekFrom(src, section, key, p, upper, InSection) == Bounds(p, q + 2, KeyFound)
  {
    var n := p + 1;
    SeekKeyLine(src, section, key, p, n, upper);
    if p < q {
      assert Continues(Lower(src[p]));
      SeekContinuing(src, section, key, n, q, p, KeyFound);
    }
  }

  /** The line that assigns the key: its list ends there or goes on. */
  lemma SeekKeyLine(src: seq<string>, section: string, key: string, p: nat, n: nat, upper: int)
    requires 0 <= upper <= p < |src| && n == p + 1
    requires Opens(Lower(src[p]), key)
    ensures SeekFrom(src, section, key, p, upper, InSection)
            == if EndsWithoutComma(Lower(src[p])) then Bounds(p, p + 2, KeyFound)
               else SeekFrom(src, section, key, n, p, KeyFound)
  {
    var b := Lower(src[p]);
    assert !Ignored(b) && b[0] != '[' && IsKeyLine(b, key);
    assert InSection.(key := true) == KeyFound;
  }

  /** SetFile's output for the bounds cfgSeek found, with HEADER set. */
  lemma SpliceInSection(src: seq<string>, section: string, key: string, value: seq<string>, upper: nat, lower: int)
    requires SeekSpec(src, Lower(section), Lower(key)).upper == upper
    requires SeekSpec(src, Lower(section), Lower(key)).lower == lower
    requires SeekSpec(src, Lower(section), Lower(key)).flag.header
    ensures upper <= |src| && (lower == -1 || 1 <= lower <= |src| + 1)
    ensures SetFileSpec(src, section, key, value)
            == src[..upper] + Commas(KeyLines(Lower(key), NonEmptyPrefix(value))) + (if lower != -1 then src[lower - 1..] else [])
  {
    BlockShape(Lower(section), Lower(key), value, true);
  }

  /** The section is there without the key and another section follows: the
      key's lines go right after the header. */
  lemma SetFileInsertAfterHeader(src: seq<string>, section: string, key: string, value: seq<string>, h: nat, q: nat)
    requires FirstHeader(src, Lower(section), h) && h < q < |src|
    requires forall j :: h < j < q ==> PassedOver(Lower(src[j]), Lower(key))
    requires Bracket(Lower(src[q]))
    ensures SetFileSpec(src, section, key, value)
            == src[..h + 1] + Commas(KeyLines(Lower(key), NonEmptyPrefix(value))) + src[h + 1..]
  {
    var s, k := Lower(section), Lower(key);
    assert SeekSpec(src, s, k) == Bounds(h + 1, h + 2, InSection) by {
      SeekInSection(src, s, k, h, q);
    }
    SpliceInSection(src, section, key, value, h + 1, h + 2);
  }

  /** The section is the last one and does not hold the key: the key's lines
      are appended at the end of the file. */
  lemma SetFileAppendToSection(src: seq<string>, section: string, key: string, value: seq<string>, h: nat)
    requires FirstHeader(src, Lower(section), h)
    requires forall j :: h < j < |src| ==> PassedOver(Lower(src[j]), Lower(key))
    ensures SetFileSpec(src, section, key, value) == src + Commas(KeyLines(Lower(key), NonEmptyPrefix(value)))
  {
    var s, k := Lower(section), Lower(key);
    assert SeekSpec(src, s, k) == Bounds(|src|, -1, InSection) by {
      SeekInSection(src, s, k, h, |src|);
    }
    SpliceInSection(src, section, key, value, |src|, -1);
    assert src[..|src|] == src;
  }

  /** The section holds the key at line p, its list ending at line q: lines p
      to q are replaced by the new block. */
  lemma SetFileReplaceKey(src: seq<string>, section: string, key: string, value: seq<string>, h: nat, p: nat, q: nat)
    requires FirstHeader(src, Lower(section), h) && h < p <= q < |src|
    requires forall j :: h < j < p ==> PassedOver(Lower(src[j]), Lower(key))
    requires Opens(Lower(src[p]), Lower(key))
    requires forall j :: p <= j < q ==> Continues(Lower(src[j]))
    requires Ends(Lower(src[q]))
    ensures SetFileSpec(src, section, key, value)
            == src[..p] + Commas(KeyLines(Lower(key), NonEmptyPrefix(value))) + src[q + 1..]
  {
    var s, k, after := Lower(section), Lower(key), q + 1;
    assert SeekSpec(src, s, k) == Bounds(p, after + 1, KeyFound) by {
      SeekInSection(src, s, k, h, p);
      SeekKey(src, s, k, p, q, h + 1);
    }
    SpliceAt(src, section, key, value, p, after);
  }

  /** SetFile's output once cfgSeek found the key's lines ending before line
      `after`. */
  lemma SpliceAt(src: seq<string>, section: string, key: string, value: seq<string>, upper: nat, after: nat)
    requires SeekSpec(src, Lower(section), Lower(key)) == Bounds(upper, after + 1, KeyFound)
    ensures SetFileSpec(src, section, key, value)
            == src[..upper] + Commas(KeyLines(Lower(key), NonEmptyPrefix(value))) + src[after..]
  {
    SpliceInSection(src, section, key, value, upper, after + 1);
  }
}
