/** The writer of cfg.go (SetFile, cfg.go:351-541): it rejects values holding a
    reserved character, finds the lines of the file that hold the key (cfgSeek),
    and rewrites the file as the lines before them, a freshly built block and
    the lines after them. Files are sequences of lines; the temporary file is a
    sequence the method appends to. */
module Writer {
  import opened Strings
  import opened Syntax
  import opened Files

  // ----- validation (cfg.go:352-363) -----

  /** The characters a value may not hold. */
  predicate IsReserved(c: char) {
    c == '[' || c == ']' || c == ','
  }

  /** The first reserved character of v, if it has one. */
  function FirstReserved(v: string): (r: Option<char>)
    ensures r.None? <==> forall j :: 0 <= j < |v| ==> !IsReserved(v[j])
    ensures r.Some? ==> exists j :: 0 <= j < |v| && v[j] == r.value && IsReserved(v[j])
                                    && forall j' :: 0 <= j' < j ==> !IsReserved(v[j'])
  {
    if v == [] then None
    else if IsReserved(v[0]) then Some(v[0])
    else
      var r := FirstReserved(v[1..]);
      assert r.Some? ==> exists j :: 0 <= j < |v[1..]| && v[1..][j] == r.value && IsReserved(v[1..][j])
                                     && forall j' :: 0 <= j' < j ==> !IsReserved(v[1..][j']);
      r
  }

  /** The error the validation loop returns: the first reserved character of the
      first value that has one. */
  function Validation(value: seq<string>): (r: Option<CfgError>)
    ensures r.None? <==> forall i :: 0 <= i < |value| ==> FirstReserved(value[i]).None?
    ensures r.Some? ==> exists i :: 0 <= i < |value| && FirstReserved(value[i]).Some?
                                    && r.value == InvalidChar(FirstReserved(value[i]).value, value[i])
                                    && forall i' :: 0 <= i' < i ==> FirstReserved(value[i']).None?
  {
    if value == [] then None
    else match FirstReserved(value[0])
      case Some(c) => Some(InvalidChar(c, value[0]))
      case None =>
        var r := Validation(value[1..]);
        assert r.Some? ==> exists i :: 0 <= i < |value[1..]| && FirstReserved(value[1..][i]).Some?
                                       && r.value == InvalidChar(FirstReserved(value[1..][i]).value, value[1..][i])
                                       && forall i' :: 0 <= i' < i ==> FirstReserved(value[1..][i']).None?;
        r
  }

  /** The loop over the values and their characters that opens SetFile. */
  method Validate(value: seq<string>) returns (err: Option<CfgError>)
    ensures err == Validation(value)
  {
    for i := 0 to |value|
      invariant Validation(value) == Validation(value[i..])
    {
      assert value[i..][1..] == value[i + 1..];
      var val := value[i];
      for j := 0 to |val|
        invariant FirstReserved(val) == FirstReserved(val[j..])
      {
        assert val[j..][1..] == val[j + 1..];
        var ch := val[j];
        if ch == '[' || ch == ']' || ch == ',' {
          return Some(InvalidChar(ch, val));
        }
      }
    }
    return None;
  }

  // ----- no_end_comma (cfg.go:376-391) -----

  /** The line does not end with a comma (blanks after the comma count as an end). */
  predicate EndsWithoutComma(s: string) {
    s == [] || s[|s| - 1] != ','
  }

  /** no_end_comma: every character sets the answer, a comma to false and any
      other (the tab and blank cases fall through to the default) to true. */
  method NoEndComma(input: string) returns (noComma: bool)
    ensures noComma <==> (input == [] || input[|input| - 1] != ',')
  {
    noComma := true;
    for i := 0 to |input|
      invariant noComma <==> (i == 0 || input[i - 1] != ',')
    {
      var ch := input[i];
      if ch == ',' {
        noComma := false;
      } else {
        noComma := true;
      }
    }
  }

  // ----- cfgSeek (cfg.go:394-437) -----

  /** cfgSeek's results: `upper`, the number of lines kept in front of the block;
      `lower`, one more than the 1-based number of the first line kept after it
      (-1: none are); and the flags that say whether the section and the key
      were found. */
  datatype Bounds = Bounds(upper: int, lower: int, flag: Flags)

  /** A line that cfgSeek passes over: empty, or a comment. */
  predicate Ignored(b: string) {
    |b| == 0 || b[0] == '#'
  }

  /** The (lower-cased) header line of the section. */
  predicate IsHeaderOf(b: string, section: string) {
    HasPrefix(b, "[" + section + "]")
  }

  /** The (lower-cased) line that assigns the key: it starts with the key and the
      text before its first `=`, trimmed, is the key. */
  predicate IsKeyLine(b: string, key: string) {
    HasPrefix(b, key) && TrimSpace(BeforeFirst(b, '=')) == key
  }

  /** cfgSeek from the line after the first n, with `upper` and `flag` as they
      are at that point. */
  function SeekFrom(lines: seq<string>, section: string, key: string, n: nat, upper: int, flag: Flags): (r: Bounds)
    requires n <= |lines| && 0 <= upper <= n
    ensures 0 <= r.upper <= |lines|
    ensures r.lower == -1 || r.upper < r.lower <= |lines| + 1
    ensures r.lower == -1 ==> r.upper == |lines|
    ensures !r.flag.header ==> r.lower == -1
    decreases |lines| - n
  {
    if n == |lines| then Bounds(n, -1, flag)
    else
      var line := n + 1;
      var b := Lower(lines[n]);
      if Ignored(b) then SeekFrom(lines, section, key, line, upper, flag)
      else if !flag.header && IsHeaderOf(b, section) then
        SeekFrom(lines, section, key, line, line, flag.(header := true))
      else if flag.header && b[0] == '[' then Bounds(upper, upper + 1, flag)
      else if flag.header then
        var found := !flag.key && IsKeyLine(b, key);
        var upper' := if found then line - 1 else upper;
        var flag' := if found then flag.(key := true) else flag;
        if flag'.key && EndsWithoutComma(b) then Bounds(upper', line + 1, flag')
        else SeekFrom(lines, section, key, line, upper', flag')
      else SeekFrom(lines, section, key, line, upper, flag)
  }

  /** What cfgSeek computes for a file's lines. */
  function SeekSpec(lines: seq<string>, section: string, key: string): (r: Bounds)
    ensures 0 <= r.upper <= |lines|
    ensures r.lower == -1 || r.upper < r.lower <= |lines| + 1
  {
    SeekFrom(lines, section, key, 0, 0, NoFlags)
  }

  /** cfgSeek: one pass over the lower-cased lines. */
  method Seek(lines: seq<string>, section: string, key: string) returns (upper: int, lower: int, flag: Flags)
    ensures Bounds(upper, lower, flag) == SeekSpec(lines, section, key)
  {
    upper, lower, flag := 0, 0, NoFlags;
    var line := 0;
    while line < |lines|
      invariant line <= |lines| && 0 <= upper <= line
      invariant SeekFrom(lines, section, key, line, upper, flag) == SeekSpec(lines, section, key)
    {
      var b := Lower(lines[line]);
      line := line + 1;
      var l := |b|;
      if (l > 0 && b[0] == '#') || l == 0 {
        continue;
      }
      if !flag.header {
        if HasPrefix(b, "[" + section + "]") {
          flag := flag.(header := true);
          upper := line;
          continue;
        }
      } else {
        // the next section header: the key was not there, so it is new
        if b[0] == '[' {
          lower := upper + 1;
          return;
        }
      }
      if flag.header {
        if !flag.key && HasPrefix(b, key) {
          var pfx := BeforeFirst(b, '=');
          if TrimSpace(pfx) == key {
            upper := line - 1;
            flag := flag.(key := true);
          }
        }
        if flag.key {
          var noComma := NoEndComma(b);
          if noComma {
            lower := line + 1;
            return;
          }
        }
      }
    }
    return line, -1, flag;
  }

  // ----- copyFile (cfg.go:442-460) -----

  /** The lines copyFile(src, dst, start, end) appends: it first scans past
      `start` lines, then copies while fewer than `end` lines are counted (all of
      them when end is -1) and the scanner still yields lines. */
  function Copied(src: seq<string>, start: int, end: int): (r: seq<string>)
    ensures start == 0 && 0 <= end <= |src| ==> r == src[..end]
    ensures end == -1 && 0 <= start <= |src| ==> r == src[start..]
  {
    var skipped := if start <= 0 then 0 else start;
    var from := if skipped < |src| then skipped else |src|;
    if end == -1 then src[from..]
    else if end <= skipped then []
    else if from + (end - skipped) <= |src| then src[from..from + (end - skipped)]
    else src[from..]
  }

  /** copyFile: `pos` is how many lines the scanner has read, `line` the count
      the source keeps (it also counts scans past the end of the file). */
  method CopyFile(src: seq<string>, dst: seq<string>, start: int, end: int) returns (out: seq<string>)
    ensures out == dst + Copied(src, start, end)
  {
    out := dst;
    var pos, line := 0, 0;
    while line < start
      invariant 0 <= line && (start <= 0 ==> line == 0) && (start > 0 ==> line <= start)
      invariant pos == (if line < |src| then line else |src|)
      decreases start - line
    {
      if pos < |src| {
        pos := pos + 1;
      }
      line := line + 1;
    }
    ghost var skipped := line;
    ghost var from := pos;
    assert skipped == (if start <= 0 then 0 else start);
    while (line < end || end == -1) && pos < |src|
      invariant from <= pos <= |src| && pos - from == line - skipped
      invariant end != -1 && skipped < end ==> line <= end
      invariant end != -1 && end <= skipped ==> line == skipped
      invariant out == dst + src[from..pos]
      decreases |src| - pos
    {
      var text := src[pos];
      pos := pos + 1;
      line := line + 1;
      out := out + [text];
    }
    assert from == (if skipped < |src| then skipped else |src|);
    if end == -1 {
      assert out == dst + src[from..];
    } else if end <= skipped {
      assert out == dst + [];
    } else if from + (end - skipped) <= |src| {
      assert out == dst + src[from..from + (end - skipped)];
    } else {
      assert out == dst + src[from..];
    }
  }

  // ----- the replacement block (cfg.go:462-502) -----

  /** The values the block holds: those before the first empty one. */
  function NonEmptyPrefix(value: seq<string>): (r: seq<string>)
    ensures r <= value
    ensures forall i :: 0 <= i < |r| ==> r[i] != ""
    ensures |r| < |value| ==> value[|r|] == ""
  {
    if value == [] || value[0] == "" then [] else [value[0]] + NonEmptyPrefix(value[1..])
  }

  /** `key = v0`, then each later value behind len(key + " = ") blanks. */
  function KeyLines(key: string, values: seq<string>): (r: seq<string>)
    ensures |r| == |values|
    ensures values != [] ==> r[0] == key + " = " + values[0]
    ensures forall i {:trigger r[i]} :: 1 <= i < |values| ==> r[i] == Blanks(|key| + 3) + values[i]
  {
    if values == [] then []
    else if |values| == 1 then [key + " = " + values[0]]
    else KeyLines(key, values[..|values| - 1]) + [Blanks(|key| + 3) + values[|values| - 1]]
  }

  /** The first value makes the `key = v0` line. */
  lemma KeyLinesFirst(key: string, values: seq<string>)
    requires values != []
    ensures KeyLines(key, values[..1]) == KeyLines(key, values[..0]) + [key + " = " + values[0]]
  {
    assert values[..0] == [];
    assert values[..1] == [values[0]];
  }

  /** Every later value adds one line behind the spacer. */
  lemma KeyLinesStep(key: string, values: seq<string>, i: nat)
    requires 1 <= i < |values|
    ensures KeyLines(key, values[..i + 1]) == KeyLines(key, values[..i]) + [Blanks(|key| + 3) + values[i]]
  {
    PrefixOfPrefix(values, i);
    KeyLinesNext(key, values[..i + 1], i, values[..i], values[i]);
  }

  lemma KeyLinesNext(key: string, w: seq<string>, n: nat, u: seq<string>, v: string)
    requires 1 <= n && |w| == n + 1 && w[..n] == u && w[n] == v
    ensures KeyLines(key, w) == KeyLines(key, u) + [Blanks(|key| + 3) + v]
  {
  }

  lemma PrefixOfPrefix(values: seq<string>, i: nat)
    requires i < |values|
    ensures values[..i + 1][..i] == values[..i] && values[..i + 1][i] == values[i]
  {
  }

  /** The values before the first empty one are the first i when the first i
      are not empty and the next is (or there is none). */
  lemma {:induction false} NonEmptyPrefixAt(value: seq<string>, i: nat)
    requires i <= |value| && forall j :: 0 <= j < i ==> value[j] != ""
    requires i == |value| || value[i] == ""
    ensures NonEmptyPrefix(value) == value[..i]
  {
    if i > 0 {
      NonEmptyPrefixAt(value[1..], i - 1);
      assert value[..i] == [value[0]] + value[1..][..i - 1];
    }
  }

  /** The block's entries before they are written: the header when the section
      is new, then the key lines. */
  function Entries(section: string, key: string, value: seq<string>, header: bool): seq<string> {
    (if header then [] else ["[" + section + "]"]) + KeyLines(key, NonEmptyPrefix(value))
  }

  /** The lines the write loop emits for the first n entries: a new header as an
      empty line and the header, every other entry but the last with a comma. */
  function Written(txt: seq<string>, header: bool, n: nat): (r: seq<string>)
    requires n <= |txt|
  {
    if n == 0 then []
    else
      var i := n - 1;
      Written(txt, header, i) +
        (if i == 0 && !header then ["", txt[0]]
         else if i < |txt| - 1 then [txt[i] + ","]
         else [txt[i]])
  }

  /** The block that replaces the key's lines. */
  function Block(section: string, key: string, value: seq<string>, header: bool): seq<string> {
    var txt := Entries(section, key, value, header);
    Written(txt, header, |txt|)
  }

  /** Every entry but the last followed by a comma. */
  function Commas(txt: seq<string>): (r: seq<string>)
    ensures |r| == |txt|
  {
    seq(|txt|, i requires 0 <= i < |txt| => txt[i] + (if i < |txt| - 1 then "," else ""))
  }

  /** The first n lines the write loop emits. */
  lemma {:induction false} WrittenPrefix(txt: seq<string>, header: bool, n: nat)
    requires n <= |txt|
    ensures header || n == 0 ==> Written(txt, header, n) == Commas(txt)[..n]
    ensures !header && n > 0 ==> Written(txt, header, n) == ["", txt[0]] + Commas(txt)[1..n]
  {
    if n > 0 {
      var i := n - 1;
      WrittenPrefix(txt, header, i);
      var c := Commas(txt);
      assert txt[i] + "" == txt[i];
      if header || i > 0 {
        assert Written(txt, header, n) == Written(txt, header, i) + [c[i]];
      }
      if header {
        assert c[..n] == c[..i] + [c[i]];
      } else if i == 0 {
        assert c[1..n] == [];
      } else {
        assert c[1..n] == c[1..i] + [c[i]];
      }
    }
  }

  /** The block the write loop emits: after a new section's header (preceded by
      an empty line), `key = v0` and then the later values aligned under v0,
      every line but the last ending in a comma, none for an empty first value. */
  lemma BlockShape(section: string, key: string, value: seq<string>, header: bool)
    ensures Block(section, key, value, header)
            == (if header then [] else ["", "[" + section + "]"]) + Commas(KeyLines(key, NonEmptyPrefix(value)))
  {
    var txt := Entries(section, key, value, header);
    WrittenPrefix(txt, header, |txt|);
    var kl := KeyLines(key, NonEmptyPrefix(value));
    var c := Commas(txt);
    assert c[..|txt|] == c;
    if !header {
      assert txt == ["[" + section + "]"] + kl;
      CommasTail("[" + section + "]", kl);
    } else {
      assert txt == kl;
    }
  }

  /** The commas after the first entry are those of the rest. */
  lemma CommasTail(h: string, rest: seq<string>)
    ensures Commas([h] + rest)[1..] == Commas(rest)
  {
    var l, r := Commas([h] + rest)[1..], Commas(rest);
    forall i | 0 <= i < |rest|
      ensures l[i] == r[i]
    {
      assert ([h] + rest)[i + 1] == rest[i];
    }
  }

  /** What SetFile writes back when the values are valid and the file opens. */
  function SetFileSpec(src: seq<string>, section: string, key: string, value: seq<string>): seq<string> {
    var section, key := Lower(section), Lower(key);
    var b := SeekSpec(src, section, key);
    src[..b.upper] + Block(section, key, value, b.flag.header) + (if b.lower != -1 then src[b.lower - 1..] else [])
  }

  /** The entries SetFile builds (cfg.go:462-485): the header when the section
      is missing, then the key lines up to the first empty value, the later ones
      aligned under the first value by a run of blanks. */
  method BlockEntries(section: string, key: string, value: seq<string>, header: bool) returns (txt: seq<string>)
    ensures txt == Entries(section, key, value, header)
  {
    txt := [];
    if !header {
      txt := txt + ["[" + section + "]"];
    }
    ghost var hdr := txt;
    ghost var taken := 0;
    var spacer: string := [];
    for i := 0 to |value|
      invariant taken == i
      invariant forall j :: 0 <= j < i ==> value[j] != ""
      invariant i > 0 ==> spacer == Blanks(|key| + 3)
      invariant txt == hdr + KeyLines(key, value[..i])
    {
      var str := value[i];
      if str == "" {
        NonEmptyPrefixAt(value, i);
        break;
      }
      if i == 0 {
        KeyLinesFirst(key, value);
        txt := txt + [key + " = " + str];
        taken := taken + 1;
        spacer := Spacer(|key + " = "|);
        continue;
      }
      KeyLinesStep(key, value, i);
      taken := taken + 1;
      txt := txt + [spacer + str];
    }
    // here the loop either ran to the end or stopped at the first empty value
    if taken == |value| {
      NonEmptyPrefixAt(value, taken);
    }
  }

  /** The run of blanks that aligns later values under the first: one blank
      per character of `key = `. */
  method Spacer(n: nat) returns (spacer: string)
    ensures spacer == Blanks(n)
  {
    spacer := [];
    for ch := 0 to n
      invariant spacer == Blanks(ch)
    {
      spacer := spacer + [' '];
    }
  }

  /** The write loop of SetFile (cfg.go:489-502), appending to the lines written so far. */
  method WriteEntries(tmp: seq<string>, txt: seq<string>, header: bool) returns (out: seq<string>)
    ensures out == tmp + Written(txt, header, |txt|)
  {
    out := tmp;
    var txtL := |txt| - 1;
    for i := 0 to |txt|
      invariant out == tmp + Written(txt, header, i)
    {
      var line := txt[i];
      if i == 0 {
        if !header {
          out := out + ["", line];
          continue;
        }
      }
      if i < txtL {
        out := out + [line + ","];
      } else {
        out := out + [line];
      }
    }
  }

  /** SetFile: validates, seeks, builds the block, then writes the lines before
      it, the block and the lines after it to a temporary file that replaces the
      original. */
  method SetFile(fs: FileSystem, file: string, section: string, key: string, value: seq<string>)
    returns (err: Option<CfgError>)
    modifies fs
    ensures Validation(value).Some? ==> err == Validation(value) && fs.files == old(fs.files)
    ensures Validation(value).None? && file !in old(fs.files) ==>
              err == Some(IoError(file)) && fs.files == old(fs.files)
    ensures Validation(value).None? && file in old(fs.files) ==>
              err == None && fs.files == old(fs.files)[file := SetFileSpec(old(fs.files)[file], section, key, value)]
  {
    err := Validate(value);
    if err.Some? {
      return;
    }
    ghost var wanted := if file in fs.files then SetFileSpec(fs.files[file], section, key, value) else [];
    var section, key := Lower(section), Lower(key);
    if file !in fs.files {
      return Some(IoError(file));
    }
    var f := fs.files[file];

    var head, tail, flag := Seek(f, section, key);

    var txt := BlockEntries(section, key, value, flag.header);
    var tmp: seq<string> := [];
    tmp := CopyFile(f, tmp, 0, head);
    assert tmp == f[..head];
    tmp := WriteEntries(tmp, txt, flag.header);
    ghost var block := Block(section, key, value, flag.header);
    assert tmp == f[..head] + block;
    if tail != -1 {
      tmp := CopyFile(f, tmp, tail - 1, -1);
      assert tmp == f[..head] + block + f[tail - 1..];
    }
    assert tmp == wanted;
    fs.files := fs.files[file := tmp];
    return None;
  }
}
