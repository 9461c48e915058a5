# cfg: an INI-like configuration engine, modelled in Dafny

The Go package `cfg` keeps configuration files made of `[section]` headers,
`key = value` lines, comma-separated lists of values that may go on over
several lines (a line ending in `,` continues the list), `#` comments and
backslash escapes. Section and key names are compared case-insensitively.
This project models the four parts of `cfg.go` and proves what they do:

- **Load** (`Parser`, `Cfg.Load`): a character-by-character state machine run
  over every line of a file. It builds `section -> key -> values` or stops at a
  syntax error that carries a 1-based line number. `Parser.LoadSpec` states
  the machine as functions. `Cfg.Load` runs it with the source's nested loops
  and is proved to compute `LoadSpec`.
- **ReadFile** (`Extract`): the same machine, limited to one section. It skips
  lines up to that section's header and stops at the next `[`.
- **Store** (`Cfg.Store`, `Cfg.Create`): the in-memory nested map.
  - Readers: `Get`, `ListSections`, `ListKeys` and `Exists`.
  - Mutator: `Set`, which first rewrites the file.
- **SetFile** (`Writer`): the file writer.
  - It rejects values that hold `[`, `]` or `,`.
  - `cfgSeek` (`Writer.Seek`) finds the lines that hold the key.
  - It rebuilds the file as the lines before them, a new block for the key,
    and the lines after them.

A file is a `seq<string>` of lines without their terminators. `Files.FileSystem`
is a class whose `files` map a path to its lines; it stands for the disk.
Characters are runes, and case folding is ASCII only. The four parser flags
(HEADER, KEY, COMMA, ESCAPE, cfg.go:36-41) are four booleans in `Syntax.Flags`.

Lemma modules:
- `LoadFacts`: one-line facts about Load.
- `ReadFacts`: ReadFile, and how it relates to Load.
- `SeekFacts`: where SetFile puts the key's block.
- `SetTwice`: a second Set on the same key replaces the block the first one wrote.
- `Folding` and `Filled`: what every store Load returns satisfies (folded names, no key without a value).
- `RoundTrip`: Create, then Set, then Load.

## Model

| member | source | states |
|---|---|---|
| Syntax.SetKey | cfg.go:127-131 | the key is never longer than the buffer it comes from |
| Syntax.SetKeyNormal | cfg.go:127-131 | a key holds no upper-case letter and no white space at either end, and setKey leaves a key unchanged |
| Syntax.AddVal | cfg.go:133-136 | addVal keeps the pending values and appends exactly one |
| Syntax.AddValTrimmed | cfg.go:133-136 | the appended value has no white space at either end, and trimming it again changes nothing |
| Syntax.Escaped | cfg.go:184-190 | after a backslash the next character is buffered literally and ESCAPE is cleared; a character that ends the line while text is buffered is an error at the current line |
| Syntax.Assign | cfg.go:205-209 | `=` fails exactly when a key is open; otherwise the trimmed, case-folded buffer becomes the key and the buffer empties |
| Syntax.Separate | cfg.go:210-214 | `,` fails exactly when no key is open; otherwise the trimmed buffer joins the values and COMMA is set |
| Syntax.Ordinary | cfg.go:231-244 | a blank or tab in front of an empty buffer changes nothing; any other character is appended and clears COMMA; the only error is the line's last character with text buffered |
| Syntax.Backslash | cfg.go:228-230 | `\` sets ESCAPE and is itself appended to the buffer |
| Parser.LoadChar | cfg.go:184-244 | one character of Load's switch: the escape test first, then `[`, `#`, `=`, `,`, newline, `\` and the default branch, each with its error line |
| Parser.LoadLine | cfg.go:183-245 | the rest of a line, character by character, until the line ends, fails or panics; it never leaves the line open |
| Parser.LoadLines | cfg.go:177-250 | the remaining lines, each counted, empty ones skipped; at the end of the file an open key is an error at `last` |
| Parser.LoadSpec | cfg.go:159-253 | Load from its initial state over the file's lines |
| Cfg.Load | cfg.go:159-253 | a missing file is an I/O error with no store; otherwise the store and the error are what LoadSpec gives: the store, or a syntax error at a line with the store filled so far, or the panic of a write into a missing section |
| LoadFacts.OrdinariesFromEmpty | cfg.go:231-244 | from an empty buffer, leading blanks and tabs are skipped and the rest of the text is buffered |
| LoadFacts.AssignLine | cfg.go:205-227 | a line `k = v` makes the trimmed, case-folded `k` the key; with a trailing comma the trimmed `v` is pending and the key stays open; without one, `[v trimmed]` is stored under the key in the current section, or Load panics when no section was read |
| LoadFacts.ContinuationLine | cfg.go:210-227 | an indented value line appends the trimmed value to the open list, and stores the whole list when it has no trailing comma |
| LoadFacts.ValueRun | cfg.go:210-244 | the value that ends a line joins the list; a trailing comma keeps the list open, otherwise it is committed and KEY and HEADER are cleared |
| LoadFacts.HeaderLine | cfg.go:193-202 | a `[name]` line makes the case-folded name the current section and installs an empty key map that replaces any earlier one |
| LoadFacts.HashKeepsKeyOpen | cfg.go:203-204 | a `#` after `k = v` drops the rest of the line with its newline: the key stays open and nothing is stored |
| LoadFacts.SecondAssignFails | cfg.go:206 | a second `=` on a line with a key open is a syntax error at that line |
| LoadFacts.BracketWithKeyOpen | cfg.go:194 | a `[` while a key is open is a syntax error at `last`, not at the current line |
| LoadFacts.CommaWithoutKey | cfg.go:211 | a `,` with no key open is a syntax error at that line |
| LoadFacts.NewlineWithoutKey | cfg.go:216 | a line that ends with no key open is a syntax error at that line |
| LoadFacts.BackslashBeforeNewline | cfg.go:184-187 | a backslash right before the newline is a syntax error at that line |
| LoadFacts.EscapedCommaKept | cfg.go:184-190 | an escaped comma does not split the value: the stored value keeps both the backslash and the comma |
| LoadFacts.SkippedLines | cfg.go:178-181 | empty lines and lines starting with `#` are skipped but still counted |
| LoadFacts.KeyBeforeSection | cfg.go:224 | a `k = v` line before any header writes into a missing section map: Load panics |
| LoadFacts.OpenAtEndOfFile | cfg.go:249-250 | a file that ends with a key open (a trailing comma on its last line) is a syntax error at `last` |
| Extract.ReadChar | cfg.go:300-342 | one character of ReadFile's switch: as Load's, except that `[` ends reading and `#` is an ordinary character |
| Extract.ReadLine | cfg.go:291-344 | the rest of a line inside the section |
| Extract.ReadLines | cfg.go:268-347 | comment and empty lines skipped, lines before the section's header only counted, then the section's lines; the end of the file is no error |
| Extract.ReadSpec | cfg.go:256-348 | ReadFile from its initial state for the case-folded section |
| Extract.ReadFile | cfg.go:256-348 | a missing file gives an empty map and an I/O error; otherwise the map and the error are what ReadSpec gives |
| ReadFacts.SkipsToHeader | cfg.go:275-288 | before the section's header, lines that are not that header only advance the line count |
| ReadFacts.MissingSection | cfg.go:275-288 | a file without the section's header gives an empty map and no error |
| ReadFacts.StopsAtBracket | cfg.go:322-324 | inside the section, a `[` line ends reading: the map so far with no error, or a syntax error at `last` when a key is open |
| ReadFacts.HashInLine | cfg.go:203-204 | a `#` inside a line ends the line for Load, but ReadFile buffers it as an ordinary character |
| ReadFacts.MirrorChar | cfg.go:300-342 | on a clean character the two machines step alike or fail at the same line, and Load never panics inside a section |
| ReadFacts.MirrorLine | cfg.go:291-344 | on a clean line the two machines end alike, or fail at the same line |
| ReadFacts.SkipsCommentLines | cfg.go:275 | empty lines and lines starting with `#` are only counted, before the header and inside the section alike |
| ReadFacts.MirrorLines | cfg.go:290-347 | over a section body without `[` or `#`, ReadFile returns the map Load stores for the section; when Load fails, ReadFile fails with the same line and map, unless the failure is the key left open at the end of the file (OpenAtEnd), which is no error for ReadFile |
| ReadFacts.OpenAtEndFails | cfg.go:249-250 | a run that reaches the end of the file with a key open is a Load failure |
| ReadFacts.ReadAgreesWithLoad | cfg.go:256-348 | for a file that is one section `[name]` with such a body, ReadFile agrees with Load as MirrorLines says: the same map, and the same error except for a key left open at the end of the file |
| Cfg.Store.Get | cfg.go:44-61 | names are case-folded; a missing key or an empty list gives `[""]` and leaves the store alone; otherwise the values come back without backslashes, the stored list is replaced by the stripped one, and nothing else changes; a folded store stays folded |
| Cfg.Unescaped | cfg.go:54-59 | each value with every backslash removed |
| Cfg.UnescapedClean | cfg.go:54-59 | no value Get returns holds a backslash, and stripping twice is stripping once, so a second Get returns what the first did |
| Cfg.KeysOf | cfg.go:68-70 | the loop over a map yields each key exactly once |
| Cfg.Store.ListSections | cfg.go:65-72 | every section name exactly once |
| Cfg.Store.ListKeys | cfg.go:75-86 | the name is taken as given; a missing section gives nothing, otherwise each key of the section exactly once |
| Cfg.Store.Exists | cfg.go:89-105 | true exactly when there is a first argument and it names a section as given; a second argument is never consulted |
| Cfg.Store.Set | cfg.go:108-125 | an invalid value or a missing file is returned with the store and the file untouched; otherwise the file is rewritten as SetFileSpec says and the full list is stored under the case-folded names, the section's map made when missing |
| Cfg.Stored | cfg.go:117-123 | the store after Set: the section's map, made when missing, with the values under the key |
| Cfg.StoredFolded | cfg.go:108-125 | the store Set leaves holds only case-folded section and key names when the one it found did |
| Folding.LoadCharFolded | cfg.go:193-244 | no branch of the switch puts a name that is not case-folded into the store, the current section or the current key |
| Folding.LoadLineFolded | cfg.go:183-245 | the rest of a line keeps the store, section and key case-folded |
| Folding.LoadLinesFolded | cfg.go:177-250 | the store Load returns, with or without a syntax error, holds only case-folded section and key names |
| Filled.LoadCharFilled | cfg.go:184-244 | no branch of the switch leaves a key in the store without a value: the commit stores the list addVal has just appended to |
| Filled.LoadLineFilled | cfg.go:183-245 | the rest of a line keeps every stored key's list non-empty |
| Filled.LoadLinesFilled | cfg.go:177-250 | the store Load returns, with or without a syntax error, gives every key at least one value |
| Filled.LoadSpecNonEmpty | cfg.go:159-253 | every store a Load run returns gives every key at least one value |
| Cfg.StoredFilled | cfg.go:117-123 | Set with at least one value keeps every key of the store filled |
| Cfg.StoredEmpty | cfg.go:112-123 | Set with no values leaves the key in the store with an empty list, which Load never produces |
| Folding.LoadSpecFolded | cfg.go:159-253 | every store a Load run returns holds only case-folded names, which is what ListKeys and Exists rely on when they do not fold their argument |
| Cfg.Commented | cfg.go:151-153 | each comment behind `# `, one line each |
| Cfg.Create | cfg.go:141-156 | the file is replaced by one `# ` line per comment, and the new store is empty |
| Writer.FirstReserved | cfg.go:353-361 | None exactly when the value holds no `[`, `]` or `,`; otherwise the first such character |
| Writer.Validation | cfg.go:352-363 | no error exactly when no value holds a reserved character; otherwise the error names the first offending character of the first offending value |
| Writer.Validate | cfg.go:352-363 | the validation loops compute Validation |
| Writer.NoEndComma | cfg.go:376-391 | true exactly when the line is empty or its last character is not a comma |
| Writer.SeekFrom | cfg.go:394-437 | `upper` is a line count of the file; `lower` is -1, and then `upper` is the file's length, or lies after `upper`; a section that was never found gives -1 |
| Writer.SeekSpec | cfg.go:394-437 | cfgSeek over the whole file from its initial state |
| Writer.Seek | cfg.go:394-437 | the cfgSeek loop computes SeekSpec |
| SeekFacts.SeekBefore | cfg.go:406-413 | before the section's header, cfgSeek passes over every line and sets HEADER at the header |
| SeekFacts.SeekAbsent | cfg.go:406-436 | without the section's header, cfgSeek runs to the end of the file and returns `(len, -1)` |
| SeekFacts.SeekPassing | cfg.go:414-434 | inside the section, lines that neither start with `[` nor assign the key are passed over |
| SeekFacts.SeekContinuing | cfg.go:430-433 | once the key is found, its list runs to the first line without a comma at its end, and `lower` points one past that line |
| SeekFacts.SeekKey | cfg.go:423-433 | from the line that assigns the key, `upper` is that line and `lower` is one past the end of its list |
| Writer.Copied | cfg.go:442-460 | copying from 0 to `end` is the first `end` lines, and copying from `start` with end -1 is the rest of the file |
| Writer.CopyFile | cfg.go:442-460 | the copy loops append exactly Copied |
| Writer.NonEmptyPrefix | cfg.go:468-469 | the values kept are a prefix of the input with no empty value, ending at the first empty one |
| Writer.NonEmptyPrefixAt | cfg.go:468-469 | when the first i values are non-empty and the next is empty or missing, those i are what is kept |
| Writer.KeyLines | cfg.go:468-479 | one key line per kept value: `key = v0`, then each later value behind `len(key) + 3` blanks |
| Writer.KeyLinesFirst | cfg.go:470-476 | the first value adds the `key = v0` line |
| Writer.KeyLinesStep | cfg.go:478 | each later value adds one line behind the blanks |
| Writer.Spacer | cfg.go:472-475 | the spacer is `n` blanks |
| Writer.BlockEntries | cfg.go:462-479 | the entries built are the header when the section is missing, then the key lines up to the first empty value |
| Writer.Entries | cfg.go:462-479 | the entries SetFile builds: the header when the section is missing, then the key lines |
| Writer.Written | cfg.go:486-502 | the lines the write loop emits for the first n entries: a new header behind an empty line, every other entry but the last with a comma |
| Writer.Block | cfg.go:462-502 | the lines written for the key |
| Writer.WriteEntries | cfg.go:486-502 | the write loop appends the block's lines to what is already written |
| Writer.WrittenPrefix | cfg.go:486-502 | the first n lines the loop writes are the entries with commas, after an empty line and the header when the section is new |
| Writer.BlockShape | cfg.go:462-502 | the block is an empty line and the header when the section is new, then the key lines, every one but the last ending with a comma, and none at all when the first value is empty |
| Writer.SetFileSpec | cfg.go:365-508 | the new file: the lines before `upper`, the block, and the lines from `lower - 1` on when cfgSeek found the key's list |
| Writer.SetFile | cfg.go:351-541 | an invalid value is rejected before the file is opened; a missing file is an I/O error; otherwise the file becomes SetFileSpec: the lines before the block, the block, and the lines after it |
| SeekFacts.SetFileNewSection | cfg.go:436-508 | a section not in the file is appended at its end as an empty line, the header and the key lines, and every old line is kept |
| SeekFacts.SpliceInSection | cfg.go:482-508 | with the section found, the output is the lines before `upper`, the key lines, and the lines from `lower - 1` on |
| SeekFacts.SetFileInsertAfterHeader | cfg.go:414-508 | when the section lacks the key and another `[` line follows, the key lines go right after the header, not at the end of the section |
| SeekFacts.SetFileAppendToSection | cfg.go:436-508 | when the section is the last one and lacks the key, the key lines go at the end of the file |
| SetTwice.AssignsKey | cfg.go:423-425 | for a folded key without blanks at either end and without `=`, the line `key = ...` the writer makes passes cfgSeek's key test |
| SetTwice.WriterFindsItsBlock | cfg.go:394-502 | the lines the write loop makes of a key and its values are, for cfgSeek, exactly the key's list: the first assigns the key, every other but the last ends in a comma, the last does not |
| SetTwice.ReplaceOwnBlock | cfg.go:394-508 | SetFile on a file holding such a block in the key's section replaces that block and keeps every other line |
| SetTwice.SetTwiceInsertAfterHeader | cfg.go:365-508 | when the first Set put the key right after the header, a second Set on the key writes the file the second Set alone would have written |
| SetTwice.SetTwiceAppendToSection | cfg.go:365-508 | the same when the first Set appended the key to the last section |
| SetTwice.SetTwiceReplaceKey | cfg.go:365-508 | the same when the first Set replaced the key's lines with at least one value |
| SetTwice.SetTwiceNewSection | cfg.go:365-508 | the same when the first Set appended a new section for the key |
| SetTwice.UntrimmedKeyNeverFound | cfg.go:423-428 | a key with white space at either end is never found by cfgSeek, so Set never replaces its lines |
| SeekFacts.SetFileReplaceKey | cfg.go:423-508 | when the section holds the key, the lines from the key's line through the end of its list are replaced by the key lines, and all other lines are kept |
| RoundTrip.ContinuationLines | cfg.go:210-227 | the writer's continuation lines each add their trimmed value, and the last one stores the whole list |
| RoundTrip.KeyBlock | cfg.go:205-227 | Load reads the key lines the writer builds back as the trimmed values under the key |
| RoundTrip.CreatedThenSet | cfg.go:351-541 | SetFile on a file Create made appends an empty line, the new header and the key lines after the comments |
| RoundTrip.CreateSetLoad | cfg.go:159-253 | Create, then SetFile, then Load gives the section, holding the key with its trimmed values up to the first empty one (an empty section when the first value is empty) |

## Left out

- Files and I/O: the scanner's line splitting, `\r` handling and token-size limit are not modelled. Neither are the temporary file, `Seek`, `Sync`, the truncate-and-copy, and `Remove`. A file is the sequence of its lines. The only I/O failure modelled is a missing file.
- Cfg.Create: the failure of `os.Create` is not modelled; the file is always made.
- Cfg.Create: a comment that holds a newline stays one line of the model's file, where the program's file gets two lines.
- Writer.SetFile: a section, key or value that holds a newline stays one line of the model's file, where the program's file gets more lines.
- Writer.SetFile: the errors of the temporary file and of the writes are not modelled.
- The store's `sync.RWMutex` locking is not modelled. Methods run one at a time.
- defer.go is not modelled: it is signal handling and process exit.
- The debug `fmt.Println` in Get is not modelled.
- Case folding is ASCII only. White space is Go's `unicode.IsSpace` set.
- Byte offsets are taken to be character offsets. So `txt[1:l-2]` in Load and the spacer's `len(key + " = ")` are counted in characters. They differ from the source for keys and headers that are not ASCII.
- Cfg.Store.ListSections and Cfg.Store.ListKeys: the order of the names is not stated, because Go's map iteration order is unspecified. Only "each name once" is proved.
- Cfg.Store.Exists: the two-argument key test is not written, because it can never run. It is guarded by `found` being true, and that case has already returned.
- `cfgErr`'s message text is not modelled. The error is the datatype `SyntaxError(file, line)`.
- RoundTrip.CreateSetLoad requires the folded key and the values to hold no character the parser treats specially (`=`, `,`, `#`, `[`, `\`, newline). Outside that set a file may still read back as written: SetFile refuses only `[`, `]` and `,` in values, and a `\` inside a value is kept together with the character after it (EscapedCommaKept states this for `\,`). What does not read back as written is an unescaped `=` or `#`, a `[` or `,` in the key, a value that ends in `\`, and a newline. The lemma excludes every special character, a `\` inside a value included, because its proof runs over plain characters only. It also requires the section and the comments to hold no newline, because those would split into more lines in the program's file.
- Cfg.Store.Get: Go returns the slice the store holds, so a caller's later writes into it reach the store. The model returns a value, so that aliasing is not modelled.
- ReadFacts.MirrorLines covers only section bodies without `[` and `#`; a `#` at the start of a line is skipped by both, as SkipsCommentLines and SkippedLines state. Those two characters are where ReadFile and Load differ; StopsAtBracket and HashInLine state those differences separately.
- The default branch's check `i == l - 1 && buf.Len() != 0` (cfg.go:241-243) can never fire, because the last character of a line is always the newline, which has its own case. It is modelled as written. The escape branch's check of the same condition (cfg.go:185-186) does fire; BackslashBeforeNewline shows it.

## Notes on the code's behaviour

The model follows the code where a plain reading of the format would expect
something else:

- A `[` anywhere in a line takes the header branch, and a header needs no
  closing `]`: the test `ContainsAny(txt, "[ & ]")` always holds once the line
  holds a `[`. The name is `txt[1:l-2]`, counted from the start of the line:
  it drops the line's first character and its last one before the newline,
  whatever they are (`ab[c]` names the section `b[c`).
- cfgSeek finds a key only if its line starts with the key itself. A key line
  indented by blanks is never found, so SetFile writes a second block for it.
- A missing key is inserted right after the section's header when another
  section follows; it is not appended at the end of its own section.
- The writer ends the key's list at the first line whose last character is
  not a comma. It ignores escapes and trailing blanks there, unlike Load.
- ListKeys returns nothing for an absent section and does not case-fold its
  argument. Exists does not case-fold either, and ignores its second argument.
- Set stores the full list in memory. The file only gets the values before
  the first empty one, trimmed when read back. With an empty first value it
  writes no line for the key and drops the key's old lines from the file,
  which is why SetTwiceReplaceKey needs a non-empty first value.
- Set folds the key but does not trim it (cfg.go:112, 366), while cfgSeek
  compares the trimmed text before `=` with it (cfg.go:425). A key argument
  with a blank at either end, such as `"k "`, is never found
  (UntrimmedKeyNeverFound), so every Set of it writes a new block. When
  another section follows, each new block goes right after the header, in
  front of the older ones, and Load keeps the last line it reads for a key,
  so the file reads back the oldest value. The store holds the value under
  `"k "`, where Load would store it under `k`. SetTwice states the
  replace-once promise only for keys cfgSeek can find (`Findable`).
- Set with no values stores an empty list (cfg.go:113, 123). The store then
  holds a key without a value, which Load never produces (LoadSpecNonEmpty,
  StoredEmpty); Get answers `[""]` for it (cfg.go:52).
