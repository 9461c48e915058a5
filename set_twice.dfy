/** A second Set on the same key replaces only that key's lines (SetFile,
    cfg.go:351-541): the block the writer puts into the file has the shape
    cfgSeek looks for, so the next SetFile finds it and splices its own block
    over it. The key must be one cfgSeek can find again: cfgSeek compares the
    trimmed text before `=` with the key as Set passes it (cfg.go:425), which
    Set folds but does not trim. */
module SetTwice {
  import opened Strings
  import opened Syntax
  import opened Writer
  import opened SeekFacts

  /** A (folded) key cfgSeek recognises on the line the writer makes of it: no
      white space at either end, no `=`, and not starting like a comment or a
      header. */
  predicate Findable(key: string) {
    Lower(key) == key && TrimSpace(key) == key && '=' !in key
    && (key == [] || (key[0] != '#' && key[0] != '['))
  }

  /** Values the writer can lay out as the key's list: none empty (the writer
      stops at an empty one) and none holding a comma (SetFile refuses those). */
  predicate Layable(values: seq<string>) {
    forall i :: 0 <= i < |values| ==> values[i] != [] && ',' !in values[i]
  }

  /** Lines cfgSeek reads as the whole list of the key: the first assigns the
      key, each but the last goes on, the last ends the list. */
  predicate KeyList(lines: seq<string>, key: string) {
    lines != [] && Opens(Lower(lines[0]), key)
    && (forall j :: 0 <= j < |lines| - 1 ==> Continues(Lower(lines[j])))
    && Ends(Lower(lines[|lines| - 1]))
  }

  /** Case folding keeps the first and the last character's role. */
  lemma LowerEnds(x: string)
    requires x != []
    ensures Lower(x) != []
    ensures Lower(x)[0] == '#' <==> x[0] == '#'
    ensures Lower(x)[0] == '[' <==> x[0] == '['
    ensures Lower(x)[|x| - 1] == ',' <==> x[|x| - 1] == ','
  {
  }

  /** The text before the first `sep` of a + b, when a holds no `sep`. */
  lemma {:induction false} BeforeFirstAppend(a: string, b: string, sep: char)
    requires sep !in a
    ensures BeforeFirst(a + b, sep) == a + BeforeFirst(b, sep)
  {
    if a != [] {
      assert (a + b)[0] == a[0] && (a + b)[1..] == a[1..] + b;
      BeforeFirstAppend(a[1..], b, sep);
      assert [a[0]] + (a[1..] + BeforeFirst(b, sep)) == a + BeforeFirst(b, sep);
    } else {
      assert a + b == b;
    }
  }

  /** Folding `key = rest` folds only rest, when the key is folded. */
  lemma LowerKeyLine(key: string, rest: string)
    requires Lower(key) == key
    ensures Lower(key + (" = " + rest)) == key + (" = " + Lower(rest))
  {
    LowerAppend(key, " = " + rest);
    LowerAppend(" = ", rest);
    assert Lower(" = ") == " = ";
  }

  /** The text before the first `=` of `key = rest` is `key `. */
  lemma BeforeAssign(key: string, rest: string)
    requires '=' !in key
    ensures BeforeFirst(key + (" = " + rest), '=') == key + " "
  {
    BeforeFirstAppend(key, " = " + rest, '=');
  }

  /** `key = rest` is the line that assigns the key. */
  lemma AssignsKey(key: string, rest: string)
    requires Findable(key)
    ensures IsKeyLine(Lower(key + (" = " + rest)), key)
  {
    LowerKeyLine(key, rest);
    BeforeAssign(key, Lower(rest));
    TrimSpaceDropsTrailing(key, " ");
  }

  /** Line j of the block: not a comment or a header; a comma ends it exactly
      when it is not the last. */
  lemma BlockLineShape(key: string, values: seq<string>, j: nat)
    requires (key == [] || (key[0] != '#' && key[0] != '[')) && Layable(values) && j < |values|
    ensures var x := Commas(KeyLines(key, values))[j];
      x != [] && x[0] != '#' && x[0] != '[' && (x[|x| - 1] == ',' <==> j < |values| - 1)
  {
    var kl := KeyLines(key, values);
    var x := Commas(kl)[j];
    var v := values[j];
    var c := if j < |values| - 1 then "," else "";
    assert x == kl[j] + c;
    if j == 0 {
      assert kl[0] == key + " = " + v;
      assert x == key + " = " + (v + c);
      assert x[0] == if key == [] then ' ' else key[0];
    } else {
      assert kl[j] == Blanks(|key| + 3) + v;
      assert x[0] == ' ';
    }
    if c == "" {
      assert x[|x| - 1] == v[|v| - 1] && ',' !in v;
    }
  }

  /** The block's first line is `key = v0`, with a comma when more follow. */
  lemma BlockFirstLine(key: string, values: seq<string>)
    requires values != []
    ensures Commas(KeyLines(key, values))[0]
            == key + (" = " + (values[0] + if 0 < |values| - 1 then "," else ""))
  {
    var kl := KeyLines(key, values);
    var c := if 0 < |values| - 1 then "," else "";
    assert Commas(kl)[0] == kl[0] + c && kl[0] == key + " = " + values[0];
  }

  /** Each line of the block plays its part in the key's list, given that the
      first one assigns the key. */
  lemma BlockLineRole(key: string, values: seq<string>, j: nat)
    requires (key == [] || (key[0] != '#' && key[0] != '[')) && Layable(values) && j < |values|
    requires IsKeyLine(Lower(Commas(KeyLines(key, values))[0]), key)
    ensures var x := Lower(Commas(KeyLines(key, values))[j]);
      (j == 0 ==> Opens(x, key)) && (j < |values| - 1 ==> Continues(x)) && (j == |values| - 1 ==> Ends(x))
  {
    BlockLineShape(key, values, j);
    LowerEnds(Commas(KeyLines(key, values))[j]);
  }

  /** The block's first line assigns the key. */
  lemma FirstLineAssigns(key: string, values: seq<string>)
    requires Findable(key) && values != []
    ensures IsKeyLine(Lower(Commas(KeyLines(key, values))[0]), key)
  {
    BlockFirstLine(key, values);
    AssignsKey(key, values[0] + if 0 < |values| - 1 then "," else "");
  }

  /** With its first line assigning the key, the block is the key's list. */
  lemma BlockIsKeyList(key: string, values: seq<string>)
    requires (key == [] || (key[0] != '#' && key[0] != '[')) && values != [] && Layable(values)
    requires IsKeyLine(Lower(Commas(KeyLines(key, values))[0]), key)
    ensures KeyList(Commas(KeyLines(key, values)), key)
  {
    var lines := Commas(KeyLines(key, values));
    var n := |values|;
    BlockLineRole(key, values, 0);
    BlockLineRole(key, values, n - 1);
    forall j | 0 <= j < n - 1
      ensures Continues(Lower(lines[j]))
    {
      BlockLineRole(key, values, j);
    }
  }

  /** The lines the writer makes of a key and its values are the key's list. */
  lemma WriterFindsItsBlock(key: string, values: seq<string>)
    requires Findable(key) && values != [] && Layable(values)
    ensures KeyList(Commas(KeyLines(key, values)), key)
  {
    FirstLineAssigns(key, values);
    BlockIsKeyList(key, values);
  }

  /** Nothing appended changes nothing. */
  lemma NoTail<T>(a: seq<T>)
    ensures a + [] == a
  {
  }

  /** A sequence is its head and its tail. */
  lemma SplitAt<T>(a: seq<T>, n: nat)
    requires n <= |a|
    ensures a[..n] + a[n..] == a
  {
  }

  /** The first n lines keep the section's first header at h. */
  lemma HeadKept(src: seq<string>, n: nat, rest: seq<string>, section: string, h: nat)
    requires FirstHeader(src, section, h) && h < n <= |src|
    ensures FirstHeader(src[..n] + rest, section, h)
  {
    assert forall j :: 0 <= j <= h ==> (src[..n] + rest)[j] == src[j];
  }

  /** A block between pre and post sits at |pre| in the file, with pre's lines
      in front of it and post's behind it. */
  lemma BlockInPlace(pre: seq<string>, blk: seq<string>, post: seq<string>, key: string, h: nat)
    requires h < |pre| && KeyList(blk, key)
    requires forall j :: h < j < |pre| ==> PassedOver(Lower(pre[j]), key)
    ensures var src, p, q := pre + blk + post, |pre|, |pre| + |blk| - 1;
      p <= q < |src|
      && (forall j :: h < j < p ==> PassedOver(Lower(src[j]), key))
      && Opens(Lower(src[p]), key)
      && (forall j :: p <= j < q ==> Continues(Lower(src[j])))
      && Ends(Lower(src[q]))
      && src[..p] == pre && src[q + 1..] == post
  {
    var src, p, q := pre + blk + post, |pre|, |pre| + |blk| - 1;
    Concatenated(pre, blk, post);
    forall j | h < j < p
      ensures PassedOver(Lower(src[j]), key)
    {
      assert src[j] == pre[j];
    }
    forall j | p <= j < q
      ensures Continues(Lower(src[j]))
    {
      assert src[j] == blk[j - p];
    }
    assert src[p] == blk[0] && src[q] == blk[|blk| - 1];
  }

  /** Where the parts of pre + blk + post sit. */
  lemma Concatenated<T>(pre: seq<T>, blk: seq<T>, post: seq<T>)
    ensures var src := pre + blk + post;
      (forall j :: 0 <= j < |pre| ==> src[j] == pre[j])
      && (forall j :: |pre| <= j < |pre| + |blk| ==> src[j] == blk[j - |pre|])
      && src[..|pre|] == pre && src[|pre| + |blk|..] == post
  {
  }

  /** SetFile on a file whose key list is a block the writer made: the block
      is replaced by the new one, and the lines around it are kept. */
  lemma ReplaceOwnBlock(pre: seq<string>, blk: seq<string>, post: seq<string>,
                        section: string, key: string, value: seq<string>, h: nat)
    requires FirstHeader(pre + blk + post, Lower(section), h) && h < |pre|
    requires forall j :: h < j < |pre| ==> PassedOver(Lower(pre[j]), Lower(key))
    requires KeyList(blk, Lower(key))
    ensures SetFileSpec(pre + blk + post, section, key, value)
            == pre + Commas(KeyLines(Lower(key), NonEmptyPrefix(value))) + post
  {
    BlockInPlace(pre, blk, post, Lower(key), h);
    SetFileReplaceKey(pre + blk + post, section, key, value, h, |pre|, |pre| + |blk| - 1);
  }

  /** ReplaceOwnBlock for a block put after the first n lines of a file whose
      section header is at h and whose lines up to n are passed over. */
  lemma SecondSetAt(src: seq<string>, n: nat, blk: seq<string>, post: seq<string>,
                    section: string, key: string, value: seq<string>, h: nat)
    requires FirstHeader(src, Lower(section), h) && h < n <= |src|
    requires forall j :: h < j < n ==> PassedOver(Lower(src[j]), Lower(key))
    requires KeyList(blk, Lower(key))
    ensures SetFileSpec(src[..n] + blk + post, section, key, value)
            == src[..n] + Commas(KeyLines(Lower(key), NonEmptyPrefix(value))) + post
  {
    HeadKept(src, n, blk + post, Lower(section), h);
    assert src[..n] + blk + post == src[..n] + (blk + post);
    ReplaceOwnBlock(src[..n], blk, post, section, key, value, h);
  }

  /** The same for a block at the end of the file. */
  lemma SecondSetAtEnd(src: seq<string>, blk: seq<string>, section: string, key: string, value: seq<string>, h: nat)
    requires FirstHeader(src, Lower(section), h)
    requires forall j :: h < j < |src| ==> PassedOver(Lower(src[j]), Lower(key))
    requires KeyList(blk, Lower(key))
    ensures SetFileSpec(src + blk, section, key, value)
            == src + Commas(KeyLines(Lower(key), NonEmptyPrefix(value)))
  {
    var b2 := Commas(KeyLines(Lower(key), NonEmptyPrefix(value)));
    SecondSetAt(src, |src|, blk, [], section, key, value, h);
    assert src[..|src|] == src;
    NoTail(src + blk);
    NoTail(src + b2);
  }

  /** The lines the writer lays out for the first value set. */
  lemma FirstBlock(key: string, v1: seq<string>)
    requires Findable(Lower(key)) && (forall i :: 0 <= i < |v1| ==> ',' !in v1[i])
    requires NonEmptyPrefix(v1) != []
    ensures KeyList(Commas(KeyLines(Lower(key), NonEmptyPrefix(v1))), Lower(key))
  {
    var pv := NonEmptyPrefix(v1);
    assert forall i :: 0 <= i < |pv| ==> pv[i] == v1[i];
    WriterFindsItsBlock(Lower(key), pv);
  }

  /** A second SetFile on a key the first one placed in the section after its
      header (another section following) replaces the first one's lines. */
  lemma SetTwiceInsertAfterHeader(src: seq<string>, section: string, key: string, v1: seq<string>, v2: seq<string>, h: nat, q: nat)
    requires FirstHeader(src, Lower(section), h) && h < q < |src|
    requires forall j :: h < j < q ==> PassedOver(Lower(src[j]), Lower(key))
    requires Bracket(Lower(src[q]))
    requires Findable(Lower(key)) && forall i :: 0 <= i < |v1| ==> ',' !in v1[i]
    ensures SetFileSpec(SetFileSpec(src, section, key, v1), section, key, v2) == SetFileSpec(src, section, key, v2)
  {
    var k := Lower(key);
    var pre, post := src[..h + 1], src[h + 1..];
    var blk, blk2 := Commas(KeyLines(k, NonEmptyPrefix(v1))), Commas(KeyLines(k, NonEmptyPrefix(v2)));
    assert SetFileSpec(src, section, key, v1) == pre + blk + post by {
      SetFileInsertAfterHeader(src, section, key, v1, h, q);
    }
    assert SetFileSpec(src, section, key, v2) == pre + blk2 + post by {
      SetFileInsertAfterHeader(src, section, key, v2, h, q);
    }
    assert SetFileSpec(pre + blk + post, section, key, v2) == pre + blk2 + post by {
      if blk == [] {
        assert pre + blk + post == src by {
          NoTail(pre);
          SplitAt(src, h + 1);
        }
      } else {
        FirstBlock(key, v1);
        SecondSetAt(src, h + 1, blk, post, section, key, v2, h);
      }
    }
  }

  /** Likewise when the first SetFile appended the key to the last section. */
  lemma SetTwiceAppendToSection(src: seq<string>, section: string, key: string, v1: seq<string>, v2: seq<string>, h: nat)
    requires FirstHeader(src, Lower(section), h)
    requires forall j :: h < j < |src| ==> PassedOver(Lower(src[j]), Lower(key))
    requires Findable(Lower(key)) && forall i :: 0 <= i < |v1| ==> ',' !in v1[i]
    ensures SetFileSpec(SetFileSpec(src, section, key, v1), section, key, v2) == SetFileSpec(src, section, key, v2)
  {
    var k := Lower(key);
    var blk, blk2 := Commas(KeyLines(k, NonEmptyPrefix(v1))), Commas(KeyLines(k, NonEmptyPrefix(v2)));
    assert SetFileSpec(src, section, key, v1) == src + blk by {
      SetFileAppendToSection(src, section, key, v1, h);
    }
    assert SetFileSpec(src, section, key, v2) == src + blk2 by {
      SetFileAppendToSection(src, section, key, v2, h);
    }
    assert SetFileSpec(src + blk, section, key, v2) == src + blk2 by {
      if blk == [] {
        NoTail(src);
      } else {
        FirstBlock(key, v1);
        SecondSetAtEnd(src, blk, section, key, v2, h);
      }
    }
  }

  /** Likewise when the first SetFile replaced the key's lines p to q, as long
      as it left a line there: with an empty first value it deletes the key's
      lines, and the second SetFile then places its block elsewhere. */
  lemma SetTwiceReplaceKey(src: seq<string>, section: string, key: string, v1: seq<string>, v2: seq<string>, h: nat, p: nat, q: nat)
    requires FirstHeader(src, Lower(section), h) && h < p <= q < |src|
    requires forall j :: h < j < p ==> PassedOver(Lower(src[j]), Lower(key))
    requires Opens(Lower(src[p]), Lower(key))
    requires forall j :: p <= j < q ==> Continues(Lower(src[j]))
    requires Ends(Lower(src[q]))
    requires Findable(Lower(key)) && forall i :: 0 <= i < |v1| ==> ',' !in v1[i]
    requires v1 != [] && v1[0] != ""
    ensures SetFileSpec(SetFileSpec(src, section, key, v1), section, key, v2) == SetFileSpec(src, section, key, v2)
  {
    var k := Lower(key);
    var pre, post := src[..p], src[q + 1..];
    var blk, blk2 := Commas(KeyLines(k, NonEmptyPrefix(v1))), Commas(KeyLines(k, NonEmptyPrefix(v2)));
    assert SetFileSpec(src, section, key, v1) == pre + blk + post by {
      SetFileReplaceKey(src, section, key, v1, h, p, q);
    }
    assert SetFileSpec(src, section, key, v2) == pre + blk2 + post by {
      SetFileReplaceKey(src, section, key, v2, h, p, q);
    }
    assert SetFileSpec(pre + blk + post, section, key, v2) == pre + blk2 + post by {
      FirstBlock(key, v1);
      SecondSetAt(src, p, blk, post, section, key, v2, h);
    }
  }

  /** The header line the writer makes for a new section is that section's. */
  lemma WrittenHeader(section: string)
    ensures IsHeaderOf(Lower("[" + Lower(section) + "]"), Lower(section))
  {
    var s := Lower(section);
    LowerAppend("[" + s, "]");
    LowerAppend("[", s);
    LowerIdempotent(section);
  }

  /** After a new section is appended, its header is the section's first. */
  lemma NewSectionHeader(src: seq<string>, section: string)
    requires forall j :: 0 <= j < |src| ==> !IsHeaderOf(Lower(src[j]), Lower(section))
    ensures FirstHeader(src + ["", "[" + Lower(section) + "]"], Lower(section), |src| + 1)
  {
    var pre := src + ["", "[" + Lower(section) + "]"];
    WrittenHeader(section);
    assert forall j :: 0 <= j < |src| ==> pre[j] == src[j];
    assert pre[|src|] == "";
  }

  /** Likewise when the first SetFile appended a new section: the second finds
      that section's header and the key's lines under it. */
  lemma SetTwiceNewSection(src: seq<string>, section: string, key: string, v1: seq<string>, v2: seq<string>)
    requires forall j :: 0 <= j < |src| ==> !IsHeaderOf(Lower(src[j]), Lower(section))
    requires Findable(Lower(key)) && forall i :: 0 <= i < |v1| ==> ',' !in v1[i]
    ensures SetFileSpec(SetFileSpec(src, section, key, v1), section, key, v2) == SetFileSpec(src, section, key, v2)
  {
    var s, k := Lower(section), Lower(key);
    var pre := src + ["", "[" + s + "]"];
    var h := |src| + 1;
    var blk, blk2 := Commas(KeyLines(k, NonEmptyPrefix(v1))), Commas(KeyLines(k, NonEmptyPrefix(v2)));
    assert SetFileSpec(src, section, key, v1) == pre + blk by {
      SetFileNewSection(src, section, key, v1);
    }
    assert SetFileSpec(src, section, key, v2) == pre + blk2 by {
      SetFileNewSection(src, section, key, v2);
    }
    assert SetFileSpec(pre + blk, section, key, v2) == pre + blk2 by {
      NewSectionHeader(src, section);
      if blk == [] {
        NoTail(pre);
        SetFileAppendToSection(pre, section, key, v2, h);
      } else {
        FirstBlock(key, v1);
        SecondSetAtEnd(pre, blk, section, key, v2, h);
      }
    }
  }

  /** cfgSeek never finds a key with white space at either end: the text it
      compares with the key is trimmed (cfg.go:424-425), so Set writes a new
      block for such a key every time instead of replacing its lines. */
  lemma {:induction false} UntrimmedKeyNeverFound(lines: seq<string>, section: string, key: string, n: nat, upper: int, flag: Flags)
    requires TrimSpace(key) != key && !flag.key
    requires n <= |lines| && 0 <= upper <= n
    ensures !SeekFrom(lines, section, key, n, upper, flag).flag.key
    decreases |lines| - n
  {
    if n < |lines| {
      var b := Lower(lines[n]);
      assert !IsKeyLine(b, key) by {
        TrimSpaceIdempotent(BeforeFirst(b, '='));
      }
      UntrimmedKeyNeverFound(lines, section, key, n + 1, upper, flag);
      UntrimmedKeyNeverFound(lines, section, key, n + 1, n + 1, flag.(header := true));
    }
  }
}
