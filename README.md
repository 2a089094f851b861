# INI tools formatter — a Dafny model

This project models the INI formatter of the npp-ini-tools plugin, found in `src/PluginDefinition.cpp`. The `formatIni` command runs the editor text through five stages:

- `formatWhitespace` trims every line, collapses runs of blank lines, and ends each line with CRLF.
- `parseSections` groups the lines into `IniSection` values: a header plus body lines.
- `formatSections` sorts the sections by header. This stage is optional, and a leading section without a header stays first.
- `formatKeys` runs on every section. It rewrites each `key = value` line as `key=value`, sorts those lines by key, and puts the other non-blank lines after them. This stage is optional.
- `rebuildBuffer` writes the sections back as text.

The two menu commands switch the two optional stages on and off.

The model follows the C++ code stage by stage:

- **Pure helpers become functions.** These are `trim`, `find_first_not_of`, `find_last_not_of`, `find` and `normalizeKeyValue`.
- **Loops become methods.** `formatWhitespace`, `parseSections`, `formatKeys`, the per-section `formatKeys` loop and `rebuildBuffer` are methods with `while` loops. Each method is proved against a specification function that folds over a prefix of its input.
- **Sorts work on arrays.** Both `std::sort` calls become an in-place sort on an array range (`Sorting.SortFrom`). It promises only what `std::sort` promises: a sorted permutation.
- **Flags live in a class.** The globals `g_sortSections` and `g_sortKeys` are the fields of `Plugin.IniTools`. Its toggle methods flip one field each.
- **Properties are lemmas.** They are stated on the specification functions and gathered in each stage's module. The whole pipeline is `Plugin.Transform`.

Text is `seq<char>`. Character order is the order of character codes, which is `std::string`'s `operator<` (`Lex.Less`). `std::getline` on a `std::stringstream` cuts the text at every `'\n'` and drops the `'\n'`. A final `'\n'` starts no extra piece (`Streams.GetLines`).

Three behaviours of the code are easy to misread; the model follows the code:

- **Empty documents.** A document with no visible character is rebuilt as the empty text, not as a single CRLF. The reason is that `find_last_not_of` finds nothing, so the text is left as it is (lines 198-201).
- **Sort stability.** Both sorts are `std::sort`, which is not stable. No contract claims that equal headers or equal keys keep their input order.
- **The line `[]`.** `getline` returns it as `[]\r`, which is three characters long and trims to `[]`, so the test at line 152 takes it for a header with the text `[]`. The text `a\n[]\nb\n` is written back as `a\r\n\r\n[]\r\nb\r\n`.

## Model

| member | source | states |
|---|---|---|
| Text.Trim | src/PluginDefinition.cpp:112-117 | the result is empty exactly when every character is space, tab, CR or LF; otherwise it neither starts nor ends with one of them |
| Text.TrimSlice | src/PluginDefinition.cpp:112-117 | the result of `trim` is a contiguous piece of the input with only stripped characters before and after it |
| Text.TrimOfPadded | src/PluginDefinition.cpp:112-117 | `trim` removes exactly the stripped padding around an already trimmed text |
| Text.TrimIgnoresPadding | src/PluginDefinition.cpp:112-117 | adding stripped characters on either side never changes what `trim` returns |
| Text.TrimKeepsOut | src/PluginDefinition.cpp:112-117 | `trim` introduces no character that was not in its input |
| Text.FindFirstNotOf | src/PluginDefinition.cpp:113 | `npos` exactly for all-whitespace text; otherwise the first non-stripped position |
| Text.FindLastNotOf | src/PluginDefinition.cpp:115 | `npos` exactly for all-whitespace text; otherwise the last non-stripped position |
| Text.Find | src/PluginDefinition.cpp:208 | `npos` exactly when the character is absent; otherwise its first position |
| Streams.GetLines | src/PluginDefinition.cpp:121-126 | the pieces repeated `getline` extracts; none contains '\n' |
| Streams.JoinGetLines | src/PluginDefinition.cpp:121-126 | the pieces, each followed by '\n', give the text back, with a final '\n' added when it lacked one |
| Streams.GetLinesOfCrlf | src/PluginDefinition.cpp:145-150 | reading CRLF-terminated lines back with `getline` gives each line with its '\r' still attached |
| Streams.AllWsGetLines | src/PluginDefinition.cpp:121-126 | a text is blank exactly when every piece `getline` extracts is blank |
| Streams.NoBlankRun | src/PluginDefinition.cpp:193-194 | CRLF-joined lines without '\n' and never two blank ones in a row contain no three CRLFs in a row |
| Whitespace.FormatWhitespace | src/PluginDefinition.cpp:119-141 | the loop with its `lastWasEmpty` flag writes the CRLF-joined lines of `WsLines`; those lines are trimmed, '\n'-free, never start with a blank line and never have two blank lines in a row; the result is empty exactly when the input is blank |
| Whitespace.WsStepEmits | src/PluginDefinition.cpp:127-138 | what one iteration appends: the trimmed line and CRLF; nothing for a blank line at the start or after a blank line; otherwise a lone CRLF |
| Whitespace.WsEmit | src/PluginDefinition.cpp:127-138 | one iteration of the loop body extends the text by what `WsStep` emits for the line, and the new `lastWasEmpty` is true exactly when the last emitted line is blank |
| Whitespace.WsLinesNormal | src/PluginDefinition.cpp:126-139 | the emitted lines are trimmed, '\n'-free, do not start blank and never hold two blank lines in a row |
| Whitespace.WsLinesBlank | src/PluginDefinition.cpp:126-139 | nothing is emitted exactly when every input line is blank |
| Whitespace.WsLinesContent | src/PluginDefinition.cpp:126-139 | the non-blank emitted lines are the trimmed non-blank input lines, in order |
| Whitespace.FormatWsEmpty | src/PluginDefinition.cpp:119-141 | the result is empty exactly when the input has no character other than space, tab, CR and LF |
| Whitespace.FormatWsIdempotent | src/PluginDefinition.cpp:119-141 | formatting the result again gives the same text |
| Whitespace.WsLinesFixpoint | src/PluginDefinition.cpp:126-139 | lines already in normal form, read back with their '\r', are emitted unchanged |
| Whitespace.TrimCr | src/PluginDefinition.cpp:127 | a trimmed line read back with its '\r' trims to itself |
| Whitespace.NormalJoinBlank | src/PluginDefinition.cpp:119-141 | text in normal form is blank only when it holds no line |
| Sections.ParseSections | src/PluginDefinition.cpp:143-166 | the loop yields the stored sections of `Parse` followed by the final `push_back`; the result is well formed |
| Sections.ParseWellFormed | src/PluginDefinition.cpp:150-165 | at least one section; only the first can lack a header; every header is bracketed and trimmed; no body line passes the header test |
| Sections.ParseStepOk | src/PluginDefinition.cpp:151-161 | one iteration keeps the stored sections well formed and the current section acceptable |
| SectionContent.ParseFlatten | src/PluginDefinition.cpp:150-163 | reading the headers and body lines back in order gives the input lines, with header lines trimmed and body lines untouched |
| SectionContent.FlattenHeaderStep | src/PluginDefinition.cpp:152-157 | a header line closes the current section (stored only when it holds something) and its trimmed text is the next line read back |
| SectionContent.FlattenBodyStep | src/PluginDefinition.cpp:158-161 | any other line is read back as it is, after the lines already read |
| SectionContent.ParseBlank | src/PluginDefinition.cpp:150-163 | every section is blank exactly when every input line is blank |
| SectionContent.FlattenBlank | src/PluginDefinition.cpp:150-163 | for sections without blank headers, all sections are blank exactly when all their lines are |
| Lex.LessIrreflexive | src/PluginDefinition.cpp:107-109 | no string is smaller than itself |
| Lex.LessTrichotomy | src/PluginDefinition.cpp:107-109 | any two strings are equal or one is smaller |
| Lex.LessTransitive | src/PluginDefinition.cpp:107-109 | the order is transitive |
| Lex.LessEqTotal | src/PluginDefinition.cpp:240-243 | any two keys can be put in order |
| Sorting.SortFrom | src/PluginDefinition.cpp:170 | the range from `lo` becomes sorted by key and is a permutation of what it held; the elements before `lo` are untouched |
| Sorting.Insert | src/PluginDefinition.cpp:170 | one insertion keeps the array a permutation and extends the sorted run by one |
| Ordering.FormatSections | src/PluginDefinition.cpp:168-173 | a leading section without a header stays in place; the rest is sorted by header and is a permutation of the input's rest |
| Ordering.ReorderedPerm | src/PluginDefinition.cpp:168-173 | the result is a permutation of the input |
| Ordering.ReorderedPreamble | src/PluginDefinition.cpp:169 | a first section without a header is still first |
| Ordering.ReorderedWellFormed | src/PluginDefinition.cpp:168-173 | sorting keeps the sections well formed: only the first can lack a header |
| Keys.NormalizeKeyValue | src/PluginDefinition.cpp:206-221 | in the true case the key is non-empty, trimmed and '='-free, and the line is the key, '=', and a trimmed value |
| Keys.NormalizeNone | src/PluginDefinition.cpp:208-216 | false exactly when the line has no '=' or only whitespace before its first '=' |
| Keys.NormalizeSplit | src/PluginDefinition.cpp:208-219 | in the true case the pair is the trimmed text before the first '=' and key '=' trimmed rest |
| Keys.NormalizePadded | src/PluginDefinition.cpp:206-221 | whitespace around the key and around the value is dropped: `a k b = c v d` becomes `k=v` |
| Keys.NormalizeIdempotent | src/PluginDefinition.cpp:206-221 | normalising a normalised line gives it back |
| Keys.NormalizeKeepsOut | src/PluginDefinition.cpp:212-219 | the rewritten line contains no character absent from the input except '=' |
| Keys.Classify | src/PluginDefinition.cpp:228-238 | the pairs and the trimmed non-blank other lines of `Classified`, in order |
| Keys.SortPairs | src/PluginDefinition.cpp:240-243 | the pairs come out sorted by key, a permutation of the input pairs |
| Keys.FormatKeys | src/PluginDefinition.cpp:223-252 | the header is unchanged; the new body is the normalised key/value lines sorted by key (a permutation of the pairs), then the trimmed non-blank other lines in input order |
| KeyProperties.KeysFormattedBlank | src/PluginDefinition.cpp:223-252 | the body becomes empty exactly when every line was blank |
| KeyProperties.KeysFormattedCount | src/PluginDefinition.cpp:223-252 | the line count never increases |
| KeyProperties.KeysFormattedSolid | src/PluginDefinition.cpp:223-252 | every resulting line is trimmed and non-blank |
| KeyProperties.KeysFormattedNoNewlines | src/PluginDefinition.cpp:223-252 | no '\n' appears in the result when none was in the input |
| KeyProperties.ClassifiedParts | src/PluginDefinition.cpp:228-238 | every pair is in normal form and every other line is trimmed, non-blank and not a key/value line |
| KeyProperties.KeysFormattedFixpoint | src/PluginDefinition.cpp:223-252 | formatting the keys of an already formatted body can give it back unchanged |
| Rebuild.RebuildBuffer | src/PluginDefinition.cpp:175-204 | the loop and the tail truncation produce `Rebuilt`: the CRLF-joined `Emitted` lines truncated after their last visible character plus one CRLF |
| Rebuild.WriteSection | src/PluginDefinition.cpp:178-191 | appends the header line and every trimmed non-blank body line with CRLF; `hasContent` is true exactly when something was appended |
| Rebuild.BodyTextJoin | src/PluginDefinition.cpp:185-191 | the text written for a body is the CRLF-joined trimmed non-blank lines |
| Rebuild.GlueEmitted | src/PluginDefinition.cpp:177-196 | the text the outer loop writes equals the CRLF-joined section lines with one blank line after every section with content except the last |
| RebuildShape.RebuiltParagraphs | src/PluginDefinition.cpp:175-204 | for trimmed headers the rebuilt text is the non-empty sections' lines, one blank line between two sections and none after the last |
| RebuildShape.TruncateLayout | src/PluginDefinition.cpp:193-201 | the separator after the last section with content and the trailing empty sections are removed by the truncation |
| RebuildShape.RebuiltEmpty | src/PluginDefinition.cpp:175-204 | the result is empty exactly when no section has a header or a non-blank line |
| RebuildShape.RebuiltEnding | src/PluginDefinition.cpp:193-201 | a non-empty result starts with a visible character and ends with one CRLF and not two; it never holds three CRLFs in a row |
| RebuildShape.RebuiltContent | src/PluginDefinition.cpp:180-191 | the non-blank lines written are the headers and trimmed non-blank body lines of the sections, in section order |
| RebuildShape.SectionOutEmpty | src/PluginDefinition.cpp:178-191 | a section writes nothing exactly when it has no header and only blank lines |
| Reformat.ParseRereadable | src/PluginDefinition.cpp:143-166 | sections parsed from lines that each carry their '\r' have header-line headers and no body line that trims to a header line |
| Reformat.BodyRun | src/PluginDefinition.cpp:147-162 | lines that are not header lines all join the current section's body |
| Reformat.HeaderRun | src/PluginDefinition.cpp:147-162 | a block opening with a header line starts a section of its own that writes that block |
| Reformat.GroupRun | src/PluginDefinition.cpp:147-162 | a block read back adds exactly itself to the blocks the sections write |
| Reformat.SpreadRun | src/PluginDefinition.cpp:143-166 | blocks each followed by a blank line read back to the same blocks |
| Reformat.Reread | src/PluginDefinition.cpp:143-166 | the lines `rebuildBuffer` writes for such blocks parse back into sections writing the same blocks |
| Reformat.SectionBlock | src/PluginDefinition.cpp:177-197 | a parsed section writes a block, opening with its header when it has one |
| Reformat.OutsBlocks | src/PluginDefinition.cpp:175-204 | the non-empty blocks parsed sections write read back one section each |
| Reformat.ParagraphsNormal | src/PluginDefinition.cpp:175-204 | the written lines are trimmed, '\n'-free, and never start with or repeat a blank line |
| Plugin.FormatAllKeys | src/PluginDefinition.cpp:271-274 | every section is replaced by its `formatKeys` result |
| Plugin.KeysAppliedClean | src/PluginDefinition.cpp:271-274 | formatting the keys keeps the headers, keeps lines '\n'-free and keeps each section blank or not |
| Plugin.ReorderedClean | src/PluginDefinition.cpp:268-270 | sorting the sections keeps them clean and keeps them all blank or not |
| Plugin.ParseClean | src/PluginDefinition.cpp:143-166 | on '\n'-free lines, every header is trimmed and no header or body line contains '\n' |
| Plugin.FormattedLines | src/PluginDefinition.cpp:266-267 | the lines `parseSections` reads from `formatWhitespace`'s result never hit the undefined header test; they are blank exactly when the input is; they show the input's visible lines |
| Plugin.RebuiltVisible | src/PluginDefinition.cpp:177-201 | reading the rebuilt text back gives, as visible lines, the sections' headers and trimmed non-blank body lines |
| Plugin.ParsedVisible | src/PluginDefinition.cpp:266-277 | with both options off, the text written back shows exactly the input's visible lines, in order |
| Plugin.ReadyRebuilt | src/PluginDefinition.cpp:277 | for sections fed to `rebuildBuffer` by the pipeline: empty exactly when the input is blank, one final CRLF, no two blank lines in a row |
| Plugin.PipelineUnsorted | src/PluginDefinition.cpp:266-278 | with both options off, the one text the pipeline can produce is `rebuildBuffer` of the sections parsed from the whitespace-formatted text |
| Plugin.UnsortedBlocks | src/PluginDefinition.cpp:266-278 | with both options off, the written text is the sections' blocks joined with one blank line between two blocks, and those blocks read back one section each |
| Plugin.UnsortedOfBlocks | src/PluginDefinition.cpp:266-278 | text made of such blocks comes back unchanged through the pipeline with both options off |
| Plugin.UnsortedIdempotent | src/PluginDefinition.cpp:266-278 | with both options off, formatting the formatted text again changes nothing |
| Plugin.Transform | src/PluginDefinition.cpp:266-278 | the text is `rebuildBuffer` of the sections parsed from the whitespace-formatted input, reordered by `formatSections` when section sorting is on and with `formatKeys` applied to every section when key sorting is on; it is empty exactly when the input is blank; otherwise it starts with a visible character and ends with one CRLF; it has no two blank lines in a row; with both options off it shows the input's visible lines unchanged |
| Plugin.IniTools.constructor | src/PluginDefinition.cpp:34-35 | both options start switched on |
| Plugin.IniTools.ToggleSectionSort | src/PluginDefinition.cpp:283-286 | flips the section-sort option and leaves the key-sort option alone |
| Plugin.IniTools.ToggleKeySort | src/PluginDefinition.cpp:287-290 | flips the key-sort option and leaves the section-sort option alone |
| Plugin.IniTools.FormatIni | src/PluginDefinition.cpp:254-281 | an empty document is left untouched; otherwise the replacement text is the pipeline's text for the current options: empty exactly when the document is blank, else starting with a visible character and ending with one CRLF, with no two blank lines in a row, and with both options off showing the document's visible lines unchanged |

## Left out

- Editor I/O is not modelled. That covers `SendMessage` with `NPPM_GETCURRENTSCINTILLA`, `SCI_GETLENGTH`, `SCI_GETTEXT` and `SCI_SETTEXT`. `IniTools.FormatIni` receives the document text as a parameter and returns the replacement text, or `None` for the `len == 0` early return. How Scintilla fills the buffer it is handed is not part of this model, including any terminating NUL it writes together with the text.
- Menu handling is not modelled. That covers the `NPPM_SETMENUITEMCHECK` calls in the toggles, `funcItem`, `nppData`, and the registration functions `pluginInit`, `pluginCleanUp`, `commandMenuInit`, `commandMenuCleanUp` and `setCommand`. These are calls into the host.
- The element order that `std::sort` picks for equal headers or equal keys is not modelled. The C++ standard leaves it unspecified, so every contract allows any sorted permutation. For this reason no lemma claims that the whole pipeline is idempotent with either option switched on; `Plugin.UnsortedIdempotent` proves it with both options off.
- Sections.ParseSections requires `HeaderTestsDefined`. At line 152, `trimmed.front()` is undefined when an untrimmed line of length above 2 trims to nothing. `Plugin.FormattedLines` proves that this never happens on `formatWhitespace`'s output, which is the only input `formatIni` gives it.
- There is no character encoding, NUL handling or locale. Text is a sequence of characters compared by code, as `std::string` compares with `char_traits<char>`.
- The `std::vector<char>` and `std::string` copies between stages are not modelled. Each stage takes and returns a `string`.
- RebuildShape.RebuiltEmpty, RebuiltEnding and RebuiltContent require trimmed headers. Every header that `parseSections` stores is trimmed. For an arbitrary section list, a header made only of blanks would be written and then truncated away when nothing visible follows it.
- Plugin.Transform states content preservation only with both options off. With key sorting on, lines are rewritten and reordered; with section sorting on, sections are reordered. Those effects are stated per stage, by Ordering.FormatSections and Keys.FormatKeys, not on the final text.
