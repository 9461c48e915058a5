/** The configuration store of cfg.go: the Store object, Create and Load, which
    make one, and its accessors. */
module Cfg {
  import opened Strings
  import opened Syntax
  import opened Files
  import opened Parser
  import opened Writer

  class Store {
    /** the path of the configuration file */
    const file: string
    /** section -> key -> values; names are case-folded when Load or Set store them */
    var cfgStore: Sections

    constructor (file: string)
      ensures this.file == file && cfgStore == map[]
    {
      this.file := file;
      cfgStore := map[];
    }

    /** Get (cfg.go:44-61): the values of a key, names case-folded. A missing key
        and an empty list both read as one empty string. Otherwise every
        backslash is removed, and since the returned slice is the one the store
        holds, the stripped values replace the stored ones. */
    method Get(section: string, key: string) returns (result: seq<string>)
      modifies this
      ensures var s, k := Lower(section), Lower(key);
        if s in old(cfgStore) && k in old(cfgStore)[s] && old(cfgStore)[s][k] != [] then
          result == Unescaped(old(cfgStore)[s][k]) && cfgStore == old(cfgStore)[s := old(cfgStore)[s][k := result]]
        else
          result == [""] && cfgStore == old(cfgStore)
      ensures forall i :: 0 <= i < |result| ==> '\\' !in result[i]
      ensures Folded(old(cfgStore)) ==> Folded(cfgStore)
    {
      var section, key := Lower(section), Lower(key);
      if !(section in cfgStore && key in cfgStore[section]) {
        return [""];
      }
      result := cfgStore[section][key];
      if |result| == 0 {
        return [""];
      }
      ghost var stored := result;
      assert cfgStore[section][key := result] == cfgStore[section];
      assert cfgStore == cfgStore[section := cfgStore[section][key := result]];
      for i := 0 to |result|
        invariant |result| == |stored|
        invariant forall j :: 0 <= j < i ==> result[j] == RemoveAll(stored[j], '\\')
        invariant forall j :: i <= j < |stored| ==> result[j] == stored[j]
        invariant cfgStore == old(cfgStore)[section := old(cfgStore)[section][key := result]]
      {
        result := result[i := RemoveAll(result[i], '\\')];
        cfgStore := cfgStore[section := cfgStore[section][key := result]];
        assert cfgStore[section] == old(cfgStore)[section][key := result];
      }
      assert result == Unescaped(stored);
      UnescapedClean(stored);
    }

    /** ListSections (cfg.go:65-72): every section name once, in no given order. */
    method ListSections() returns (out: seq<string>)
      ensures forall s :: s in out <==> s in cfgStore
      ensures Distinct(out)
    {
      out := KeysOf(cfgStore);
    }

    /** ListKeys (cfg.go:75-86): the keys of a section, the name taken as given
        (not case-folded); nil (here empty) when there is no such section. */
    method ListKeys(section: string) returns (out: seq<string>)
      ensures section !in cfgStore ==> out == []
      ensures section in cfgStore ==> (forall k :: k in out <==> k in cfgStore[section]) && Distinct(out)
    {
      if section !in cfgStore {
        return [];
      }
      out := KeysOf(cfgStore[section]);
    }

    /** Exists (cfg.go:89-105): whether the first argument, taken as given, names a
        section. The test of a second argument as a key sits behind `found`
        being true, which has already returned, so it never runs and is not
        written here. */
    method Exists(input: seq<string>) returns (found: bool)
      ensures found <==> |input| > 0 && input[0] in cfgStore
    {
      var inlen := |input|;
      if inlen == 0 {
        return false;
      }
      found := input[0] in cfgStore;
    }

    /** Set (cfg.go:108-125): writes the values to the file first; only when that
        succeeds does the store take the full list under the case-folded names,
        the section's map made when it is missing. */
    method Set(section: string, key: string, value: seq<string>, fs: FileSystem) returns (err: Option<CfgError>)
      modifies this, fs
      ensures Validation(value).Some? ==>
                err == Validation(value) && cfgStore == old(cfgStore) && fs.files == old(fs.files)
      ensures Validation(value).None? && file !in old(fs.files) ==>
                err == Some(IoError(file)) && cfgStore == old(cfgStore) && fs.files == old(fs.files)
      ensures Validation(value).None? && file in old(fs.files) ==>
                err == None
                && fs.files == old(fs.files)[file := SetFileSpec(old(fs.files)[file], Lower(section), Lower(key), value)]
                && cfgStore == Stored(old(cfgStore), Lower(section), Lower(key), value)
    {
      var section, key := Lower(section), Lower(key);
      var newValue: seq<string> := [];
      for i := 0 to |value|
        invariant newValue == value[..i]
      {
        newValue := newValue + [value[i]];
      }
      assert newValue == value;

      err := SetFile(fs, file, section, key, newValue);
      if err.Some? {
        return;
      }
      ghost var before := cfgStore;
      if section !in cfgStore {
        cfgStore := cfgStore[section := map[]];
      }
      assert cfgStore[section] == (if section in before then before[section] else map[]);
      cfgStore := cfgStore[section := cfgStore[section][key := newValue]];
      assert cfgStore == Stored(before, section, key, value);
    }
  }

  /** The values with their backslashes removed, as Get returns them. */
  function Unescaped(values: seq<string>): seq<string> {
    seq(|values|, i requires 0 <= i < |values| => RemoveAll(values[i], '\\'))
  }

  /** No value Get returns holds a backslash, and stripping twice is stripping
      once: a second Get returns what the first did. */
  lemma UnescapedClean(values: seq<string>)
    ensures forall i :: 0 <= i < |values| ==> '\\' !in Unescaped(values)[i]
    ensures Unescaped(Unescaped(values)) == Unescaped(values)
  {
    forall i | 0 <= i < |values|
      ensures '\\' !in Unescaped(values)[i]
      ensures RemoveAll(Unescaped(values)[i], '\\') == Unescaped(values)[i]
    {
      RemoveAllSound(values[i], '\\');
      RemoveAllSound(Unescaped(values)[i], '\\');
    }
  }

  /** The store after Set has stored values under section and key. */
  function Stored(store: Sections, section: string, key: string, value: seq<string>): Sections {
    store[section := (if section in store then store[section] else map[])[key := value]]
  }

  /** Set keeps the store folded: it stores under the folded names, so the
      store it leaves (Stored, as Set's contract states) is folded whenever
      the one it found was. */
  lemma StoredFolded(store: Sections, section: string, key: string, value: seq<string>)
    requires Folded(store)
    ensures Folded(Stored(store, Lower(section), Lower(key), value))
  {
    var s, k := Lower(section), Lower(key);
    var inner := (if s in store then store[s] else map[])[k := value];
    assert Stored(store, s, k, value) == store[s := inner];
    forall t | t in store[s := inner]
      ensures Lower(t) == t && forall j :: j in store[s := inner][t] ==> Lower(j) == j
    {
      if t == s {
        assert Lower(s) == s by { LowerIdempotent(section); }
        assert Lower(k) == k by { LowerIdempotent(key); }
      }
    }
  }

  /** Set with at least one value keeps every key of the store filled. */
  lemma StoredFilled(store: Sections, section: string, key: string, value: seq<string>)
    requires NonEmptyLists(store) && value != []
    ensures NonEmptyLists(Stored(store, section, key, value))
  {
    var inner := (if section in store then store[section] else map[])[key := value];
    assert Stored(store, section, key, value) == store[section := inner];
  }

  /** Set with no values (cfg.go:113 builds a nil slice) stores the key with an
      empty list, so the store no longer gives every key a value; Get turns that
      list into `[""]` (cfg.go:52). */
  lemma StoredEmpty(store: Sections, section: string, key: string)
    ensures var m := Stored(store, section, key, []);
      section in m && key in m[section] && m[section][key] == [] && !NonEmptyLists(m)
  {
  }

  /** No element occurs twice. */
  predicate Distinct(s: seq<string>) {
    forall i, j :: 0 <= i < j < |s| ==> s[i] != s[j]
  }

  /** The `for k := range m { out = append(out, k) }` loop of ListSections and
      ListKeys: the keys of a map, each once, in whatever order the iteration
      yields them. */
  method KeysOf<V>(m: map<string, V>) returns (out: seq<string>)
    ensures forall k :: k in out <==> k in m
    ensures Distinct(out)
  {
    out := [];
    var rest := m.Keys;
    while rest != {}
      invariant rest <= m.Keys
      invariant forall k :: k in out <==> k in m && k !in rest
      invariant Distinct(out)
      decreases |rest|
    {
      var k :| k in rest;
      out := out + [k];
      rest := rest - {k};
    }
  }

  /** The lines Create writes: each comment behind "# ". */
  function Commented(comment: seq<string>): seq<string> {
    seq(|comment|, i requires 0 <= i < |comment| => "# " + comment[i])
  }

  /** Create (cfg.go:141-156): truncates (or makes) the file, writes each comment
      as a `#` line and returns an empty store for it. */
  method Create(fs: FileSystem, file: string, comment: seq<string>) returns (out: Store)
    modifies fs
    ensures fresh(out) && out.file == file && out.cfgStore == map[]
    ensures fs.files == old(fs.files)[file := Commented(comment)]
  {
    fs.files := fs.files[file := []];
    out := new Store(file);
    assert Commented(comment[..0]) == [];
    for i := 0 to |comment|
      invariant out.cfgStore == map[]
      invariant fs.files == old(fs.files)[file := Commented(comment[..i])]
    {
      fs.files := fs.files[file := fs.files[file] + ["# " + comment[i]]];
      assert Commented(comment[..i + 1]) == Commented(comment[..i]) + ["# " + comment[i]];
    }
    assert comment[..|comment|] == comment;
  }

  /** Load (cfg.go:159-253): reads the file and runs the character machine over
      every line; computes what LoadSpec says. On a syntax error the store
      filled so far comes back beside the error, as in the source. */
  method Load(fs: FileSystem, file: string) returns (out: Store?, err: Option<CfgError>)
    ensures file !in fs.files ==> out == null && err == Some(IoError(file))
    ensures file in fs.files ==> out != null && fresh(out) && out.file == file
    ensures file in fs.files ==>
      match LoadSpec(fs.files[file])
      case Loaded(m) => err == None && out.cfgStore == m
      case Failed(m, n) => err == Some(SyntaxError(file, n)) && out.cfgStore == m
      case Aborted => err == Some(Panic)
  {
    if file !in fs.files {
      return null, Some(IoError(file));
    }
    var lines := fs.files[file];
    var flag := NoFlags;
    var line: nat, last: nat := 0, 0;
    var buf: string := [];
    var section: string, key: string := [], [];
    var val: seq<string> := [];
    out := new Store(file);

    var k := 0;
    label scanLoop:
    while k < |lines|
      invariant k <= |lines|
      invariant LoadLines(LoadState(Lexer(flag, buf, val, key, line, last), section, out.cfgStore), lines[k..])
                == LoadSpec(lines)
    {
      assert lines[k..][1..] == lines[k + 1..];
      var txt := lines[k] + "\n";
      k := k + 1;
      line := line + 1;
      var l := |txt|;
      if l < 2 {
        continue;
      }
      ghost var first := LoadState(Lexer(flag, buf, val, key, line, last), section, out.cfgStore);
      for i := 0 to l
        invariant LoadLine(first, txt, 0)
                  == LoadLine(LoadState(Lexer(flag, buf, val, key, line, last), section, out.cfgStore), txt, i)
      {
        var ch := txt[i];
        if flag.escape {
          if i == l - 1 && |buf| != 0 {
            return out, Some(SyntaxError(file, line));
          }
          buf := buf + [ch];
          flag := flag.(escape := false);
          continue;
        }
        match ch {
        case '[' =>
          if flag.key {
            return out, Some(SyntaxError(file, last));
          }
          last := line;
          if l > 2 && ContainsAny(txt, "[ & ]") {
            section := txt[1..l - 2];
            flag := flag.(header := true);
            section := Lower(section);
            out.cfgStore := out.cfgStore[section := map[]];
            continue scanLoop;
          } else {
            return out, Some(SyntaxError(file, line));
          }
        case '#' =>
          continue scanLoop;
        case '=' =>
          if flag.key {
            return out, Some(SyntaxError(file, line));
          }
          flag := flag.(key := true);
          key := SetKey(buf);
          buf := [];
          last := line;
        case ',' =>
          if !flag.key {
            return out, Some(SyntaxError(file, line));
          }
          val := AddVal(buf, val);
          buf := [];
          last := line;
          flag := flag.(comma := true);
        case '\n' =>
          if !flag.key {
            return out, Some(SyntaxError(file, line));
          }
          if flag.comma {
            flag := flag.(comma := false);
            continue;
          }
          flag := flag.(header := false);
          flag := flag.(key := false);
          val := AddVal(buf, val);
          buf := [];
          if section !in out.cfgStore {
            // Go panics here: assignment to entry in nil map
            return out, Some(Panic);
          }
          out.cfgStore := out.cfgStore[section := out.cfgStore[section][key := val]];
          val := [];
          last := line;
          continue scanLoop;
        case _ =>
          if ch == '\\' {
            // `case '\\'` sets ESCAPE and falls through to the default branch
            flag := flag.(escape := true);
          }
          if |buf| == 0 && (ch == ' ' || ch == '\t') {
            continue;
          }
          flag := flag.(comma := false);
          if i == l - 1 && |buf| != 0 {
            return out, Some(SyntaxError(file, line));
          }
          buf := buf + [ch];
        }
      }
    }
    if flag.key {
      return out, Some(SyntaxError(file, last));
    }
    return out, None;
  }
}
