# custom_sorter in Dafny

A model of the core of `custom_sorter`, a tool that sorts AI-generated images into folders and
keeps each image's `.txt` parameter file next to it. It walks the input folders and picks a
destination folder for each image. Depending on the configuration, the folder comes from the
image's resolution bucket, its orientation, or values in its generation metadata. Moves go
through a retrying queue. Afterwards, input files that also appear in the output are trashed,
and directories left empty are pruned.

The model is organised like the program:

| module (file) | models |
|---|---|
| `PromptFilter` (prompt_filter.dfy) | `parse_parameters`, `extract_metadata_fields` and `extract_metadata(key)`: the AUTOMATIC1111-style parameter text parsers |
| `MetadataExtraction` (metadata_extractor.dfy) | `MetadataExtractor`: `clean_metadata_prompt`, `process_prompts`, `process_steps` and the decisions of `extract_metadata` |
| `Patterns` (patterns.dfy) | the regular expressions of those parsers, written as scanners that return what Python's backtracking matcher returns |
| `Resolution` (resolution.dfy) | the two resolution classifiers, `"WxH"` parsing and the default threshold table |
| `Orientation` (orientation.dfy) | `get_orientation_folder` |
| `FolderNames` (folder_names.dfy) | `sanitize_folder_name` |
| `MultiSort` (multi_sort.dfy) | `ImageSorter`: the folder-path builder, the skip guards, `processed_files`, the companion-file move and the `.sorted.flag` rule |
| `SortByMetadata` (sort_by_metadata.dfy) | the history-backed `extract_metadata(text, key)` and the selection rule of `sort_by_metadata` |
| `History` (history.dfy) | `log_file_move` and `load_history` over the persisted history mapping |
| `MoveQueue` (move_queue.dfy) | `QueueManager` of `scripts/cs_queue.py` |
| `PostProcessing` (post_processing.dfy) | `PostProcessingManager` of `scripts/post_processing_manager.py` |
| `Settings` (cs_settings.dfy) | the configuration handling of the script `CustomSorter` in `scripts/cs.py` |
| `CustomSorting` (custom_sorter.dfy) | the top-level `CustomSorter` of `custom_sorter.py` |
| `FileSystems`, `Paths`, `Text`, `Values`, `Wrappers` | the disk, path operations, Python string built-ins, metadata values, `Option`/`Result` |

Conventions:
- A path is its list of components.
- The disk is a `FileSystem` object. It holds the contents of each file by path and the set of directories.
- Metadata is a map from key to `Value`. A value is a string, an int, an exact decimal float, a list of strings, or an ordered nested dict.
- Some things the program reads from outside become parameters: ExifTool's output, an image's size, the time of day, and whether a move, deletion or `rmdir` is refused.

## Model

| member | source | states |
|---|---|---|
| PromptFilter.MarkerIndex | sort_methods/prompt_filter.py:129 | The field section starts at a valid index of the text, or there is no marker (-1). |
| PromptFilter.ParametersText | sort_methods/prompt_filter.py:125-126 | A string argument is used as is. Any accepted argument is a string, or a dict whose `"Parameters"` entry is that string. |
| PromptFilter.FieldValue | sort_methods/prompt_filter.py:146-150 | A field value is stored as a string or as a list. |
| PromptFilter.FieldAssignments | sort_methods/prompt_filter.py:142-150 | One assignment for each field found. |
| PromptFilter.FieldAssignmentsAt | sort_methods/prompt_filter.py:142-150 | Assignment j is the normalised key and stored value of field j. |
| PromptFilter.StorePairsAssign | sort_methods/prompt_filter.py:142-150 | Storing the fields one by one is the dict update with every assignment, in order. |
| PromptFilter.ParseParameters | sort_methods/prompt_filter.py:112-157 | `parse_parameters` returns exactly the specified map, or fails exactly when the argument is not text. |
| PromptFilter.StoreFields | sort_methods/prompt_filter.py:142-150 | The loop over the fields found stores them in order. |
| PromptFilter.ParseHasPositivePrompts | sort_methods/prompt_filter.py:138 | `positive_prompts` is always stored. |
| PromptFilter.ParseUnwrapsParameters | sort_methods/prompt_filter.py:125-126 | A dict holding the text under `"Parameters"` parses exactly like the text itself. |
| PromptFilter.ParsePositivePrompt | sort_methods/prompt_filter.py:129-138 | Unless a field overwrites it, `positive_prompts` is the stripped text before the first case-insensitive `negative prompt:`. |
| PromptFilter.ParseWithoutMarker | sort_methods/prompt_filter.py:133-135 | Without the marker, the result is exactly `{positive_prompts: text.strip()}`. |
| PromptFilter.SectionKeysNormalized | sort_methods/prompt_filter.py:143 | Every field key is already in normal form: stripped, lower-case, `_` for spaces. |
| PromptFilter.ParseKeysNormalized | sort_methods/prompt_filter.py:138-155 | Every key in the result is `positive_prompts`, `hashes`, or a normalised field name. |
| PromptFilter.ParseLaterFieldWins | sort_methods/prompt_filter.py:141-150 | A key that appears twice keeps the later value. |
| PromptFilter.ParseValuesUncoerced | sort_methods/prompt_filter.py:146-155 | There is no numeric coercion: every value is a string or a list, apart from the hashes dict. |
| PromptFilter.ParseHashes | sort_methods/prompt_filter.py:153-155 | A `Hashes: {... "model": "<hex>" ...}` entry makes `hashes` exactly `{"model": hex}`, and hex holds only hex digits. |
| PromptFilter.LineField | sort_methods/prompt_filter.py:42-57 | A line gives one field exactly when it is a `Key: value` line. |
| PromptFilter.FieldFlags | sort_methods/prompt_filter.py:38-44 | There is one flag per line. |
| PromptFilter.FirstTrue | sort_methods/prompt_filter.py:37-44 | Gives the first true flag, or the length when none is true. |
| PromptFilter.FirstFieldLine | sort_methods/prompt_filter.py:37-44 | The index of the first `Key: value` line is within bounds. |
| PromptFilter.PositiveLines | sort_methods/prompt_filter.py:59-61 | There are exactly as many prompt lines as lines before the first field line. |
| PromptFilter.FieldsResult | sort_methods/prompt_filter.py:63-71 | `model_hash` never stays at the top level of the result. |
| PromptFilter.ExtractMetadataFields | sort_methods/prompt_filter.py:27-73 | The loop with its `found_metadata` flag computes the specified result. |
| PromptFilter.FirstTrueSnoc | sort_methods/prompt_filter.py:37-44 | Once a field line has been seen, it stays the first one. |
| PromptFilter.FirstFieldLineSnoc | sort_methods/prompt_filter.py:37-44 | An extra line moves the first field line only when none had been seen yet. |
| PromptFilter.PositiveLinesSnoc | sort_methods/prompt_filter.py:59-61 | A new line is a prompt line exactly when no field line came before it and it is not one itself. |
| PromptFilter.LinesFieldsSnoc | sort_methods/prompt_filter.py:42-57 | A new field line adds its assignment; any other line adds nothing. |
| PromptFilter.ScanAllMeaning | sort_methods/prompt_filter.py:37-61 | The loop result: the flag is set exactly when some line is a field line; prompt lines are the blank-inclusive lines before the first field line; fields are every field line, later lines winning. |
| PromptFilter.ModelHashMoves | sort_methods/prompt_filter.py:64-71 | `model_hash` goes into `hashes["model"]` and is gone from the top level. |
| PromptFilter.NegativePromptDefault | sort_methods/prompt_filter.py:69-71 | `negative_prompt` is `[]` unless a parsed field sets it. |
| PromptFilter.LinesFieldsCoerced | sort_methods/prompt_filter.py:49-55 | Every field value is the coercion of its text. |
| PromptFilter.ExtractMetadataValue | sort_methods/prompt_filter.py:75-94 | The result never contains `,`. It is `"Unknown"` when nothing matches after the marker; otherwise it is the trimmed text after `key:`. |
| PromptFilter.KeyAtIgnoresCase | sort_methods/prompt_filter.py:89 | `key:` is matched regardless of case. |
| PromptFilter.KeyValueAtIgnoresCase | sort_methods/prompt_filter.py:88-89 | The match at a position does not depend on the key's case. |
| PromptFilter.SearchKeyIgnoresCase | sort_methods/prompt_filter.py:88-89 | The search does not depend on the key's case. |
| PromptFilter.PlainKeyLower | sort_methods/prompt_filter.py:88 | Lower-casing keeps a literal key literal. |
| PromptFilter.ExtractIgnoresKeyCase | sort_methods/prompt_filter.py:88-92 | `extract_metadata(key)` gives the same value for the key in any case. |
| PromptFilter.ExtractSkipsHashPrefix | sort_methods/prompt_filter.py:88 | An occurrence right after `hash` and a whitespace character is never matched. |
| PromptFilter.ExtractAbsentKey | sort_methods/prompt_filter.py:80-94 | A key that does not occur after the marker gives `"Unknown"`. |
| Patterns.LastStart | sort_methods/prompt_filter.py:141 | The backtracking point of a greedy `\s*` before `[^\n]+`: the last position where the group can start. |
| Patterns.ValueSpan | sort_methods/prompt_filter.py:141 | `\s*([^stop]+)`: the skipped text is whitespace, the group has no stop character, and the group ends at a stop character or at the end. |
| Patterns.ValueSpanNone | sort_methods/prompt_filter.py:141 | The value pattern fails exactly when every position `\s*` can stop at is a stop character or the end. |
| Patterns.FieldAt | sort_methods/prompt_filter.py:42 | A `[\w\s-]+:` key is followed by a non-empty value free of the stop character. |
| Patterns.MatchField | sort_methods/prompt_filter.py:42 | `re.match(r"([\w\s-]+):\s*(.+)")`: the text starts with `key:`, and the value is non-empty and has no line break. |
| Patterns.FieldAtNl | sort_methods/prompt_filter.py:141 | The match with an optional leading `\n` gives a non-empty single-line value. |
| Patterns.FindAllFields | sort_methods/prompt_filter.py:141 | Every value that `findall` returns is non-empty and single-line. |
| Patterns.FindAllFieldsNeedColon | sort_methods/prompt_filter.py:141 | Text without `:` has no fields. |
| Patterns.ModelEntryAt | sort_methods/prompt_filter.py:153 | The captured model hash is non-empty hex. |
| Patterns.ModelAfter | sort_methods/prompt_filter.py:153 | The lazy `.*?` search yields non-empty hex. |
| Patterns.SearchHashes | sort_methods/prompt_filter.py:153 | A found hash is non-empty hex. |
| Patterns.SearchHashesFirst | sort_methods/prompt_filter.py:153 | The search returns the leftmost match, and returns nothing only when no position matches. |
| Patterns.KeyValueAt | sort_methods/prompt_filter.py:88 | A match has `key:` at that position, is not after `hash `, and holds no comma. |
| Patterns.SearchKey | sort_methods/prompt_filter.py:89 | `re.search`: the result is the first matching position's value, and is none only when no position matches. |
| MetadataExtraction.PercentEnd | sort_methods/metadataextractor.py:16 | An optional `%` stays within the text. |
| MetadataExtraction.ModifierEnd | sort_methods/metadataextractor.py:16 | A numeric modifier starts with `:` or `-` and is at least two characters long. |
| MetadataExtraction.RemoveModifiers | sort_methods/metadataextractor.py:16 | Removing modifiers never lengthens the text and adds no character. |
| MetadataExtraction.RemoveModifiersPlain | sort_methods/metadataextractor.py:16 | Text without `:` and `-` is unchanged. |
| MetadataExtraction.UnderscoreBraces | sort_methods/metadataextractor.py:19 | `_{` rewriting adds only `,` and space. |
| MetadataExtraction.FindGroups | sort_methods/metadataextractor.py:22 | Every brace group has no `}`, and its characters come from the text. |
| MetadataExtraction.UnbraceAvoids | sort_methods/metadataextractor.py:23-26 | Expanding brace groups brings in no new character. |
| MetadataExtraction.Words | sort_methods/metadataextractor.py:30 | Every word is non-empty and has no `_`. |
| MetadataExtraction.WordsAvoid | sort_methods/metadataextractor.py:30 | A character that no piece holds (other than space) is in no word. |
| MetadataExtraction.FirstIndex | sort_methods/metadataextractor.py:31 | `words.index`: the position of the first occurrence. |
| MetadataExtraction.Dedupe | sort_methods/metadataextractor.py:31 | `sorted(set(ws), key=ws.index)`: the same words, each once, in order of first occurrence. |
| MetadataExtraction.FirstIndexPrefix | sort_methods/metadataextractor.py:31 | Appending a word does not move any earlier word's first occurrence. |
| MetadataExtraction.CleanedTextAvoids | sort_methods/metadataextractor.py:15-26 | No `~` or `!` survives cleaning. |
| MetadataExtraction.CleanedWords | sort_methods/metadataextractor.py:13-33 | Every cleaned word is non-empty and has no `,` `:` `_` `~` `!`, and no word repeats. |
| MetadataExtraction.MetadataExtractor.CleanMetadataPrompt | sort_methods/metadataextractor.py:13-33 | The method (including the brace-expansion loop) returns the specified word list. |
| MetadataExtraction.MergeParameters | sort_methods/metadataextractor.py:38-41 | A merged result has no `"Parameters"`; metadata without it is unchanged. |
| MetadataExtraction.MetadataExtractor.MergeStep | sort_methods/metadataextractor.py:38-41 | Computes the specified merge. |
| MetadataExtraction.PositiveList | sort_methods/metadataextractor.py:48-50 | A string is comma-split and a list is kept. It fails exactly on a number or a non-empty dict. |
| MetadataExtraction.MetadataExtractor.PromptList | sort_methods/metadataextractor.py:48-50 | Computes the specified prompt list or error. |
| MetadataExtraction.NegativeValue | sort_methods/metadataextractor.py:53-55 | A string becomes its comma list, anything else is kept, and the result is never a string. |
| MetadataExtraction.SplitFirstPromptMeaning | sort_methods/metadataextractor.py:62-65 | Only the first prompt is split, at its first line break; the others are untouched; the rest of the text becomes at least one token. |
| MetadataExtraction.StepsToken | sort_methods/metadataextractor.py:72-73 | Gives the index of a token spelled `steps` in any case, or the length. |
| MetadataExtraction.StepsTokenFirst | sort_methods/metadataextractor.py:73 | No earlier token is `steps`. |
| MetadataExtraction.MoveStepsMeaning | sort_methods/metadataextractor.py:72-86 | Without `steps` nothing changes, and a trailing `steps` is dropped. Otherwise the tail is `"Steps", value`, with the same length and the same tokens apart from the renamed `steps`. |
| MetadataExtraction.MultisetSwap | sort_methods/metadataextractor.py:78-86 | Moving the pair to the end keeps the tokens. |
| MetadataExtraction.Select | sort_methods/metadataextractor.py:91-95 | Each selected item has the requested `Key: value` shape. |
| MetadataExtraction.SelectPartition | sort_methods/metadataextractor.py:91-97 | The split into items and prompts loses and adds nothing. |
| MetadataExtraction.SelectAll | sort_methods/metadataextractor.py:91-97 | A list of one kind goes entirely to one side. |
| MetadataExtraction.MetadataExtractor.PartitionPrompts | sort_methods/metadataextractor.py:89-97 | The loop produces both selections, with order kept. |
| MetadataExtraction.PairsToAt | sort_methods/metadataextractor.py:103-105 | Every pair is built from two consecutive items. |
| MetadataExtraction.StoreToAssign | sort_methods/metadataextractor.py:103-114 | Storing the pairs one by one is the dict update with all of them. |
| MetadataExtraction.StoreToPairs | sort_methods/metadataextractor.py:103 | When the loop stops, every pair has been stored. |
| MetadataExtraction.PairsToExtend | sort_methods/metadataextractor.py:103 | An appended item does not change the earlier pairs. |
| MetadataExtraction.PairsIgnoreOddTail | sort_methods/metadataextractor.py:103 | An odd trailing item gives no pair. |
| MetadataExtraction.MetadataExtractor.StorePairFields | sort_methods/metadataextractor.py:100-114 | The loop stores exactly the pairs. |
| MetadataExtraction.MetadataExtractor.MoveModelHash | sort_methods/metadataextractor.py:117-119 | `model_hash` is removed and becomes `{"model": v}`, or `{}` when there is none. |
| MetadataExtraction.Finish | sort_methods/metadataextractor.py:122-129 | `hashes`, `positive_prompts` and `negative_prompt` are always present. |
| MetadataExtraction.MetadataExtractor.StoreResults | sort_methods/metadataextractor.py:117-129 | Computes the specified final stores. |
| MetadataExtraction.MetadataExtractor.PromptSteps | sort_methods/metadataextractor.py:43-129 | Steps 1-6 compute the specified result. |
| MetadataExtraction.PairKeysNormal | sort_methods/metadataextractor.py:104 | Every key the pairs write is the normal form of an item. |
| MetadataExtraction.PairKeysLowerCase | sort_methods/metadataextractor.py:104 | No key the pairs write contains a capital letter. |
| MetadataExtraction.PromptsResultShape | sort_methods/metadataextractor.py:43-131 | No `Parameters` key; `positive_prompts` is a list without `Key: value` items; `hashes` is a dict; `negative_prompt` is not a string. |
| MetadataExtraction.MetadataExtractor.ProcessPrompts | sort_methods/metadataextractor.py:35-131 | `process_prompts` computes the specified result or exception. |
| MetadataExtraction.ProcessPromptsShape | sort_methods/metadataextractor.py:35-131 | The same shape holds for `process_prompts` as a whole. |
| MetadataExtraction.ProcessPromptsBadParameters | sort_methods/metadataextractor.py:38-39 | A `"Parameters"` entry that is not text raises `AttributeError`. |
| MetadataExtraction.ProcessPromptsFails | sort_methods/metadataextractor.py:48-63 | Without `Parameters`, it fails exactly when `positive_prompts` is a number or a non-empty dict. |
| MetadataExtraction.ProcessPromptsFields | sort_methods/metadataextractor.py:100-122 | The last pair with a key decides that key's value; other keys keep their values. |
| MetadataExtraction.PromptsResultFields | sort_methods/metadataextractor.py:100-122 | The same, for steps 1-6. |
| MetadataExtraction.ProcessPromptsModelHash | sort_methods/metadataextractor.py:117-123 | `hashes` is always overwritten: `{"model": v}` with the last `model_hash` value, else `{}`. |
| MetadataExtraction.ProcessPromptsPlainList | sort_methods/metadataextractor.py:48-129 | A list of plain prompts whose first prompt has no line break comes back unchanged, with empty hashes. |
| MetadataExtraction.StepsFoldShape | sort_methods/metadataextractor.py:138-157 | Every entry is either `steps` holding an int, or a normalised key holding text. |
| MetadataExtraction.MetadataExtractor.ProcessSteps | sort_methods/metadataextractor.py:133-163 | `process_steps` computes the specified result. |
| MetadataExtraction.ProcessStepsAddsText | sort_methods/metadataextractor.py:135-161 | `steps` is gone afterwards. Every value added or changed is text, because line 153 overrides the conversion. |
| MetadataExtraction.StepsFoldOnlySteps | sort_methods/metadataextractor.py:154-157 | Entries that are not `key: value` can only set `steps`. |
| MetadataExtraction.ProcessStepsDropsNumbers | sort_methods/metadataextractor.py:156-161 | A list of bare numbers is simply deleted. |
| MetadataExtraction.TxtPath | sort_methods/metadataextractor.py:183 | The sidecar path has as many components as the image path. |
| MetadataExtraction.JsonPath | sort_methods/metadataextractor.py:209-210 | Gives `<stem>.json` in the metadata folder, or in the image's own directory. |
| MetadataExtraction.FixHashes | sort_methods/metadataextractor.py:199-206 | `Hashes` is gone afterwards. It fails exactly when `Hashes` is not text. |
| MetadataExtraction.MetadataExtractor.DecodeHashes | sort_methods/metadataextractor.py:199-206 | Computes the specified hash fix. |
| MetadataExtraction.FixHashesKeeps | sort_methods/metadataextractor.py:199-206 | No key other than `hashes`/`Hashes` changes. |
| MetadataExtraction.MetadataExtractor.ExtractMetadata | sort_methods/metadataextractor.py:167-217 | `extract_metadata` computes the specified result. |
| MetadataExtraction.MetadataExtractor.ProcessMetadata | sort_methods/metadataextractor.py:192-217 | The part after the metadata is read computes the specified result. |
| MetadataExtraction.ExtractSkipsOtherFiles | sort_methods/metadataextractor.py:169-173 | A non-image extension, in any case, gives `{}`. |
| MetadataExtraction.ExtractNeedsSidecar | sort_methods/metadataextractor.py:179-190 | When ExifTool fails and there is no sidecar, the result is `{}`. |
| MetadataExtraction.ExtractResult | sort_methods/metadataextractor.py:192-217 | Saved metadata has no `Parameters` and no `Hashes`, and is written to `<stem>.json` in the right folder. |
| MetadataExtraction.ProcessedResultShape | sort_methods/metadataextractor.py:192-217 | The same facts, for the processing part. |
| Resolution.ParseWxHDigits | sort_methods/sort_by_resolution.py:9-10 | Two digit strings around one `x` give the product of their values. |
| Resolution.ParseWxHOf | sort_methods/sort_by_resolution.py:9-10 | `"WxH"` written from two numbers parses back to their product. |
| Resolution.IntStrNoX | sort_methods/sort_by_resolution.py:9 | `str(i)` contains no `x`. |
| Resolution.ParseWxHNeedsOneX | sort_methods/sort_by_resolution.py:9-13 | Text without exactly one `x` is not a threshold. |
| Resolution.ParsePixelDimensionsAsWritten | custom_sorter.py:94-99 | Text parses exactly when it is valid `"WxH"`. The float `inf` fails with `AttributeError`. |
| Resolution.ParsePixelDimensions | scripts/cs.py:256-265 | A float is passed through, so `inf` is unbounded. Text parses exactly when it is valid `"WxH"`; the only error is `ValueError`. |
| Resolution.ParsersAgreeOnText | custom_sorter.py:94-99 | On text, both parsers accept the same inputs and give the same count. |
| Resolution.ParseThresholds | scripts/cs.py:66-69 | A parsed table has one entry per configured entry. |
| Resolution.ParseThresholdsEntries | scripts/cs.py:66-69 | The table parses exactly when every entry does, keeping names, order and each entry's count. |
| Resolution.ParseThresholdsError | scripts/cs.py:66-69 | A failure is a `ValueError`. |
| Resolution.ResolutionFolders | scripts/cs.py:60-63 | A configured non-empty table is used; otherwise the table is the non-empty default. |
| Resolution.DefaultThresholds | scripts/cs.py:51-57 | The default table parses to 0, 262144, 614400, 2073600 and `inf`, with names kept. |
| Resolution.ParsesToSuperlow | scripts/cs.py:52 | `"0x0"` is 0 pixels. |
| Resolution.ParsesToLores | scripts/cs.py:53 | `"512x512"` is 262144 pixels. |
| Resolution.ParsesToMedres | scripts/cs.py:54 | `"640x960"` is 614400 pixels. |
| Resolution.ParsesToHires | scripts/cs.py:55 | `"1080x1920"` is 2073600 pixels. |
| Resolution.DefaultTableBreaksAsWritten | custom_sorter.py:33 | The default `superhigh` entry is `inf`, and the top-level parser raises `AttributeError` on it. |
| Resolution.StringsFolderFrom | sort_methods/sort_by_resolution.py:7-17 | The result is `"other"` or a folder of the table. |
| Resolution.StringsFolder | sort_methods/sort_by_resolution.py:5-17 | The result is always `"other"` or a folder of the table. |
| Resolution.StringsFolderFromFirst | sort_methods/sort_by_resolution.py:7-17 | The search returns the first valid entry that fits, and `"other"` when none fits. |
| Resolution.StringsFolderFirstFit | sort_methods/sort_by_resolution.py:7-17 | Gives the first valid entry whose product is at least the pixel count, else `"other"`. |
| Resolution.StringsFolderSkipsInvalid | sort_methods/sort_by_resolution.py:11-13 | A malformed threshold is skipped, not fatal. |
| Resolution.FirstFitExists | sort_methods/sort_by_resolution.py:7-17 | A first fitting entry always exists, or there is none at all. |
| Resolution.StringsFolderSmallestFit | sort_methods/sort_by_resolution.py:7-16 | With ascending thresholds, the folder has the smallest threshold at least the pixel count. |
| Resolution.StringsFolderExample | sort_methods/sort_by_resolution.py:7-16 | `{lores: 512x512, medres: 640x960}` puts a 512×700 image in `medres`. |
| Resolution.FirstWithin | custom_sorter.py:283-285 | No match means no threshold holds. |
| Resolution.FirstWithinFirst | custom_sorter.py:283-285 | The match is the first entry whose threshold holds. |
| Resolution.Lowest | custom_sorter.py:289-290 | A smallest threshold of the table. |
| Resolution.Highest | custom_sorter.py:289-291 | A largest threshold of the table. |
| Resolution.ThresholdFolderFirstFit | custom_sorter.py:283-285 | The first folder whose threshold holds is the answer, whatever `dynamic_thresholds` is. |
| Resolution.ThresholdFolderFails | custom_sorter.py:288-291 | It fails exactly for an empty table with `dynamic_thresholds`. |
| Resolution.ThresholdFolderNoMatchDynamic | custom_sorter.py:288-296 | With no match and dynamic thresholds, the result is always `"superhigh"`. |
| Resolution.FirstWithinNone | custom_sorter.py:283-285 | When no threshold holds, the search finds nothing. |
| Resolution.ThresholdFolderNeverSuperlow | custom_sorter.py:293-294 | `"superlow"` only ever comes back as a folder of the table; the fallback branch is unreachable. |
| Resolution.FirstWithinIsEntry | custom_sorter.py:283-285 | A match names an entry whose threshold holds. |
| Resolution.ThresholdFolderNoMatchStatic | custom_sorter.py:298 | Without dynamic thresholds, no match gives `"other"`. |
| Resolution.ThresholdFolderRange | custom_sorter.py:279-298 | The result is a folder of the table or one of `superlow`, `superhigh`, `other`. |
| Resolution.VariantsAgree | sort_methods/sort_by_resolution.py:5-17 | For valid text thresholds with dynamic thresholds off, both classifiers agree on every pixel count. |
| Resolution.Lifted | scripts/cs.py:60-69 | Text thresholds lifted to configured values, entry by entry. |
| Orientation.OrientationFolder | sort_methods/sort_by_orientation.py:7-13 | Exactly one of square, landscape, portrait: square iff w = h, landscape iff w > h, portrait iff w < h. |
| Orientation.OrientationSwap | sort_methods/sort_by_orientation.py:7-13 | Swapping the arguments swaps landscape and portrait and keeps square. |
| Orientation.UnreadableIsSquare | sort_methods/sort_by_orientation.py:8-9 | The failure value (0, 0) is `square`. |
| FolderNames.ForbiddenToUnderscore | sort_methods/multi_sort.py:207-208 | The same length, with no forbidden character. |
| FolderNames.SanitizeFolderName | sort_methods/multi_sort.py:205-209 | No character of `<>:"/\|?*` remains, there is no `_` at either end, and the name is never longer. |
| FolderNames.StripByNoForbidden | sort_methods/sort_by_metadata.py:67 | Stripping `_` keeps a name free of forbidden characters. |
| FolderNames.SanitizeFixedPoints | sort_methods/sort_by_metadata.py:61-67 | A name is unchanged exactly when it has no forbidden character and no `_` at either end. |
| FolderNames.SanitizeIdempotent | sort_methods/sort_by_metadata.py:61-67 | Sanitising twice is the same as sanitising once. |
| FolderNames.SanitizedIsOneComponent | sort_methods/multi_sort.py:205-209 | A sanitised name has no `/`, `\` or `:`, so it is a single path component. |
| MultiSort.PresentKeys | sort_methods/multi_sort.py:118-119 | Keeps only keys present in the metadata, at most one per key looked at. |
| MultiSort.ValueSegment | sort_methods/multi_sort.py:120 | A metadata segment has no forbidden character. |
| MultiSort.MethodParts | sort_methods/multi_sort.py:116-130 | One part per sort method. |
| MultiSort.KeySegmentsPerKey | sort_methods/multi_sort.py:117-121 | Metadata mode adds one sanitised segment per present key, in key order. |
| MultiSort.PresentKeysExactly | sort_methods/multi_sort.py:118-119 | A key contributes a segment exactly when it is configured and present. |
| MultiSort.MethodSegmentsCount | sort_methods/multi_sort.py:123-130 | Orientation and resolution add exactly one segment each; an unknown method adds none. |
| MultiSort.ConcatAppend | sort_methods/multi_sort.py:116 | Concatenation distributes over appending parts. |
| MultiSort.SegmentsAppend | sort_methods/multi_sort.py:116-130 | Segments are appended in `sort_methods` order. |
| MultiSort.SegmentsSingle | sort_methods/multi_sort.py:116-130 | A single method contributes exactly its own segments. |
| MultiSort.SortingCriteria | sort_methods/multi_sort.py:113-130 | The loop builds exactly the specified segments. |
| MultiSort.LowerPath | sort_methods/multi_sort.py:140 | Lower-casing keeps the number of components. |
| MultiSort.RedundantInLeaf | sort_methods/multi_sort.py:139-147 | An image directly in an input subfolder whose name matches the target's leaf, ignoring case, is skipped. |
| MultiSort.NoSegmentsInPlaceSkipped | sort_methods/multi_sort.py:136-152 | With no segments and in-place sorting, the image is already inside its target and is skipped. |
| MultiSort.Associated | sort_methods/multi_sort.py:171 | `glob(base.*)`: existing files directly beside the image. |
| MultiSort.ImageIsAssociated | sort_methods/multi_sort.py:162-171 | An image with an extension, whose path holds no glob pattern character, is among its own companions. |
| MultiSort.MovedIntoNothing | sort_methods/file_mover.py:6-19 | Moving nothing changes nothing. |
| MultiSort.MovedIntoContents | sort_methods/file_mover.py:16-19 | Each companion arrives in the target with its contents and is gone from its old place; other files are unchanged. |
| MultiSort.TargetsOutside | sort_methods/file_mover.py:16-17 | A file in the source folder is not one of the new names in another folder. |
| MultiSort.MovedIntoStep | sort_methods/file_mover.py:16-19 | Moving one more companion extends the moved set by one. |
| MultiSort.MoveAssociated | sort_methods/multi_sort.py:175 | Every companion is moved to `sorted/basename`, and no directory changes. |
| MultiSort.Flagged | sort_methods/multi_sort.py:178-193 | Afterwards the flag exists; an existing flag is left as it is. |
| MultiSort.FlaggedOnce | sort_methods/multi_sort.py:180-193 | Flagging twice is flagging once: an existing flag is never rewritten. |
| MultiSort.ImageSorter.constructor | sort_methods/multi_sort.py:15-43 | The folders are stored; the metadata, the last folder and `processed_files` start empty. |
| MultiSort.ImageSorter.GetMetadata | sort_methods/multi_sort.py:80-82 | The record exactly when the image has one. |
| MultiSort.ImageSorter.GetSortedFolder | sort_methods/multi_sort.py:201-203 | The last folder, or none when it is unset or empty. |
| MultiSort.ImageSorter.Sort | sort_methods/multi_sort.py:84-199 | When a guard fails (missing file or metadata, redundant re-sort, already inside), nothing changes. Otherwise: the folder is made, base names are recorded once, companions move, and the flag rule runs. `processed_files` only grows. |
| MultiSort.ImageSorter.SortInto | sort_methods/multi_sort.py:154-193 | The state after the guards is the one `SortedInto` describes. |
| MultiSort.ImageSorter.ProcessSingleImage | sort_methods/multi_sort.py:48-56 | Afterwards `metadata_dict` is empty. The disk, `last_sorted_folder` and `processed_files` change exactly as `multi_sort` changes them under the single record `{file_path: metadata}`: not at all when a guard fails, otherwise as `SortedInto` says. Folders and settings are not touched. |
| MultiSort.SecondSortMovesNothing | sort_methods/multi_sort.py:164-169 | A base name is moved at most once per sorter. |
| History.LoadedDefaults | sort_methods/history.py:30-37 | A missing file and an empty document both load as `{}`. |
| History.LoggedEntry | sort_methods/history.py:6-24 | The entry is stored under the basename, with both paths verbatim and `{}` for absent metadata; other basenames are unchanged. |
| History.LogSameNameOverwrites | sort_methods/history.py:23-24 | A second move with the same basename overwrites the first. |
| History.LogDifferentNamesCommute | sort_methods/history.py:23-24 | Moves with different basenames can be logged in either order. |
| History.HistoryStore.constructor | sort_methods/history.py:4 | Holds the given history file. |
| History.HistoryStore.LoadHistory | sort_methods/history.py:30-37 | Returns the loaded history. |
| History.HistoryStore.LogFileMove | sort_methods/history.py:6-28 | Loads, adds one entry, and saves. |
| SortByMetadata.ExtractMetadataLevels | sort_methods/sort_by_metadata.py:21-25 | Gives the stored value when all three levels are present, else `"Unknown"`. |
| SortByMetadata.ExtractAfterLog | sort_methods/sort_by_metadata.py:14-22 | After `log_file_move`, the value is found under the basename, and other entries are undisturbed. |
| SortByMetadata.Destination | sort_methods/sort_by_metadata.py:78-101 | Only a `.txt` name gets a destination. |
| SortByMetadata.MetadataDestinations | sort_methods/sort_by_metadata.py:69-101 | At most one destination per listed file. |
| SortByMetadata.DestinationsStep | sort_methods/sort_by_metadata.py:77-101 | A selected file appends its destination; any other file adds nothing. |
| SortByMetadata.DestinationsSelected | sort_methods/sort_by_metadata.py:77-101 | Every destination belongs to a selected `.txt` file whose value is not `"Unknown"`, and is the folder joined with the sanitised value. |
| SortByMetadata.DestinationsComplete | sort_methods/sort_by_metadata.py:77-101 | Every selected file gets its destination. |
| SortByMetadata.NoTextNoDestination | sort_methods/sort_by_metadata.py:73-78 | A missing folder, or no `.txt` file, gives nothing. |
| SortByMetadata.DestinationsAreSanitized | sort_methods/sort_by_metadata.py:101 | Every destination is one level below the folder and has a sanitised name. |
| MoveQueue.NewName | scripts/cs_queue.py:41-42 | `base_new.ext`: the same directory, with the stem extended by `_new`. |
| MoveQueue.NewNameDiffers | scripts/cs_queue.py:41-42 | The `_new` name is a different path in the same directory. |
| MoveQueue.Decide | scripts/cs_queue.py:25-53 | A move only ever happens from an existing source. |
| MoveQueue.Pass | scripts/cs_queue.py:20-53 | The kept entries are at most the entries seen. |
| MoveQueue.MoveEntry | scripts/cs_queue.py:21-53 | The disk changes as the decision says, and the entry is kept exactly on retry. |
| MoveQueue.QueueManager.constructor | scripts/cs_queue.py:8-12 | The queue starts empty. |
| MoveQueue.QueueManager.AddToQueue | scripts/cs_queue.py:14-16 | `{src, dst, 0}` is appended and the rest is unchanged. |
| MoveQueue.QueueManager.ProcessQueue | scripts/cs_queue.py:18-53 | One pass over a snapshot: the queue and files become the pass result; directories are unchanged. |
| MoveQueue.Replaced | scripts/cs_queue.py:50 | Updating the kept entry in place. |
| MoveQueue.Removed | scripts/cs_queue.py:25-53 | `queue.remove(item)` on the current entry. |
| MoveQueue.ExhaustedDropped | scripts/cs_queue.py:25-28 | With attempts ≥ 3 the entry is dropped and nothing moves. |
| MoveQueue.IdenticalSkipped | scripts/cs_queue.py:32-38 | If the destination has identical contents, the entry goes and both files stay. |
| MoveQueue.DifferentRenamed | scripts/cs_queue.py:39-45 | If the destination has different contents, the file moves to the `_new` name and the existing file is untouched. |
| MoveQueue.RetryExactly | scripts/cs_queue.py:48-53 | An entry stays exactly when it had attempts left and was refused with `PermissionError`. |
| MoveQueue.StepKeeps | scripts/cs_queue.py:20-53 | One step keeps the kept entries retried and in order. |
| MoveQueue.PassKeeps | scripts/cs_queue.py:20-53 | After a pass the queue is an order-preserving subsequence of retried entries, each with one more attempt. |
| MoveQueue.PassSurvivors | scripts/cs_queue.py:20-53 | Every survivor is an old entry with attempts left, bumped once. |
| MoveQueue.PassAllExhausted | scripts/cs_queue.py:25-28 | A queue of exhausted entries empties with no move. |
| MoveQueue.AsWrittenDropsDifferent | scripts/cs_queue.py:32-53 | As written, a taken destination is dropped instead of renamed. |
| MoveQueue.AsWrittenAgreesWhenFree | scripts/cs_queue.py:30-53 | With a free destination, the shipped and intended decisions agree. |
| FileSystems.Moved | sort_methods/file_mover.py:19 | The contents travel, the source is gone, and every other file is unchanged. |
| FileSystems.Ancestry | sort_methods/multi_sort.py:154 | The path and all its non-empty ancestors. |
| FileSystems.FileSystem.Move | scripts/cs_queue.py:45 | `shutil.move` moves a file's contents. |
| FileSystems.FileSystem.MakeDirs | custom_sorter.py:157-158 | `os.makedirs` adds the path and its ancestors. |
| FileSystems.FileSystem.WriteFile | sort_methods/multi_sort.py:184-186 | The file gets the contents. |
| FileSystems.FileSystem.RemoveDir | scripts/post_processing_manager.py:47 | The directory is removed. |
| FileSystems.FileSystem.Trash | scripts/post_processing_manager.py:74 | The file is removed. |
| PostProcessing.FilesUnder | scripts/post_processing_manager.py:52-62 | Exactly the files strictly below the folder. |
| PostProcessing.GetAllFiles | scripts/post_processing_manager.py:52-62 | Returns the full paths of every file below the folder. |
| PostProcessing.Basenames | scripts/post_processing_manager.py:28 | Every file's basename is in the set. |
| PostProcessing.Duplicates | scripts/post_processing_manager.py:26-28 | An input file is selected exactly when its basename is some output file's basename. |
| PostProcessing.DuplicatesShareNames | scripts/post_processing_manager.py:26-28 | A selected file shares its name with an output file, and every such file is selected. |
| PostProcessing.AsWrittenSelectsNothing | scripts/post_processing_manager.py:28 | As written (basename looked up among full paths), nothing is ever selected under a named output folder. |
| PostProcessing.AsWrittenMissesCopy | scripts/post_processing_manager.py:28 | A copied file is selected by name but missed as written. |
| PostProcessing.FirstTrashed | scripts/post_processing_manager.py:72-76 | Gives the first successful attempt, or `retries` when none succeeds. |
| PostProcessing.FirstTrashedFirst | scripts/post_processing_manager.py:72-85 | Every earlier attempt was refused. |
| PostProcessing.FirstTrashedAtMost | scripts/post_processing_manager.py:72-76 | A successful attempt bounds the first one. |
| PostProcessing.DeletesExactly | scripts/post_processing_manager.py:72-86 | Deletion happens exactly when one of the `retries` attempts succeeds. |
| PostProcessing.DeleteFileWithRetry | scripts/post_processing_manager.py:64-86 | At most `retries` attempts. It stops at the first success or when the file is missing. The file is deleted exactly when an attempt succeeds. |
| PostProcessing.CleanedExactly | scripts/post_processing_manager.py:22-32 | Deletes exactly the input files that share a name with an output file and whose trashing succeeds; the others keep their contents. |
| PostProcessing.DeleteAll | scripts/post_processing_manager.py:26-33 | One failed deletion does not stop the rest. |
| PostProcessing.DeepestExists | scripts/post_processing_manager.py:42 | Some deepest directory exists, so the walk can go bottom-up. |
| PostProcessing.CleanupTree | scripts/post_processing_manager.py:42-50 | Only directories strictly below the root, empty and not refused, are removed; no file goes. If all `rmdir` calls succeed, no empty subdirectory remains. |
| PostProcessing.PostProcessingManager.constructor | scripts/post_processing_manager.py:6-13 | Stores the folders. |
| PostProcessing.StaysNonEmpty | scripts/post_processing_manager.py:40-50 | A later root's walk cannot make a directory below an earlier root empty again, because the file or refused directory that kept it non-empty stays. |
| PostProcessing.PostProcessingManager.CleanupEmptyFolders | scripts/post_processing_manager.py:36-50 | Never removes an input root or a file; a removed directory was empty and not refused. Afterwards, no directory below any input folder is empty unless its `rmdir` is refused. |
| PostProcessing.PostProcessingManager.CompareAndClean | scripts/post_processing_manager.py:15-34 | The files become the specified cleaned set. Then the empty folders are pruned: only empty, non-refused directories below an input folder go, and none that is empty and not refused remains. |
| Settings.InputFolderNames | scripts/cs.py:72 | One name per configured name. |
| Settings.FolderNamesNotBlank | scripts/cs.py:72-74 | No name is blank afterwards, and a non-blank name is kept. |
| Settings.LowerAll | scripts/cs.py:40-42 | One lower-cased name per name. |
| Settings.ScriptSettingsFails | scripts/cs.py:60-69 | Construction fails exactly when an entry of the table in use is malformed, and the error is `ValueError`. |
| Settings.ScriptSettingsNormalised | scripts/cs.py:32-74 | Methods and keys are lower-case, and folder names are non-blank. |
| Settings.ScriptSettingsThresholds | scripts/cs.py:60-69 | The thresholds are the table parsed entry by entry, with names and order kept. |
| Settings.ScriptDefaults | scripts/cs.py:29-69 | An empty configuration gives input/output, resolution, the default table, `["metadata"]` and `["model"]`. |
| Settings.DefaultNames | scripts/cs.py:29-42 | The default names are already normalised. |
| CustomSorting.ParseTableAsWritten | custom_sorter.py:43-46 | A parsed table has one entry per configured entry. |
| CustomSorting.ParseTableFirstError | custom_sorter.py:43-46 | The first unparsable entry decides the error. |
| CustomSorting.DefaultTableFails | custom_sorter.py:28-46 | Without a configured table, construction fails with `AttributeError`. |
| CustomSorting.DefaultTableAsWritten | custom_sorter.py:28-99 | The default table parses up to `inf`, which raises. |
| CustomSorting.ParseTableOfTexts | custom_sorter.py:43-46 | Valid text tables parse as in the script sorter. |
| CustomSorting.ParseTableEntries | custom_sorter.py:43-46 | When every entry parses, names, order and counts are kept. |
| CustomSorting.FilteredMembers | custom_sorter.py:194-195 | The filter keeps exactly the names with the property. |
| CustomSorting.UnsupportedMethodQueuesNothing | custom_sorter.py:211-231 | An unsupported `sort_method` raises for each image and queues nothing. |
| CustomSorting.TargetIsResolutionBucket | custom_sorter.py:214-220 | Whatever the method, the target is the resolution bucket: `output/<relpath>/<bucket>` or `root/<bucket>`. |
| CustomSorting.ImageEntriesShape | custom_sorter.py:222-227 | The image is queued, and so is its `<stem>.txt` exactly when it is listed, both to the same folder, each with its own basename and 0 attempts. |
| CustomSorting.ListingStep | custom_sorter.py:198-231 | One more image extends a listing's entries. |
| CustomSorting.ListingEntriesKeepNames | custom_sorter.py:162-164 | Every queued entry moves a file of that directory under its own basename. |
| CustomSorting.WalkEntriesSnoc | custom_sorter.py:190-195 | One more listing extends the walk's entries. |
| CustomSorting.WalkStep | custom_sorter.py:190-231 | Queueing a listing extends the walk's queue. |
| CustomSorting.AllStep | custom_sorter.py:186-231 | Queueing a folder's walk extends the queue. |
| CustomSorting.ExampleListing | custom_sorter.py:194-224 | In `[a.png, a.txt]` only `a.png` is an image, and `a.txt` is its sidecar. |
| CustomSorting.ExampleInPlace | custom_sorter.py:198-227 | A 512×700 `a.png` with `a.txt`, sorted in place, queues both into `input/medres`. |
| CustomSorting.CustomSorter.constructor | custom_sorter.py:17-81 | The sorter has an empty queue and one-component folders. |
| CustomSorting.CustomSorter.ProcessFile | custom_sorter.py:155-164 | Creates the target folder if absent, and appends exactly one entry `(src, target/basename)`. |
| CustomSorting.CustomSorter.SortImage | custom_sorter.py:198-231 | Appends exactly the image's specified entries; files are unchanged. |
| CustomSorting.CustomSorter.SortListing | custom_sorter.py:194-231 | Appends the entries of every image in listing order. |
| CustomSorting.CustomSorter.SortWalk | custom_sorter.py:190-231 | Appends the entries of every listing in walk order. |
| CustomSorting.CustomSorter.PostProcess | custom_sorter.py:239-242 | A manager over the sorter's folders cleans and prunes the input folders as `CompareAndClean` states. |
| CustomSorting.CustomSorter.SortImagesAndTexts | custom_sorter.py:182-242 | After one queue pass, every survivor is a queued entry with attempts left, bumped once. Post-processing then runs. |
| Text.LowerChar | scripts/cs.py:32 | No capital letter remains, and other characters are kept. |
| Text.Lower | sort_methods/prompt_filter.py:129 | Keeps the length. |
| Text.LowerNoUpper | scripts/cs.py:32-42 | Lower-casing leaves no capital and changes nothing in a text without one. |
| Text.LowerIdempotent | scripts/cs.py:40-42 | Lower-casing twice is the same as once. |
| Text.ReplaceChar | sort_methods/metadataextractor.py:30 | Keeps the length. |
| Text.ReplaceCharChars | sort_methods/metadataextractor.py:30 | The replaced character is gone, and no other character appears. |
| Text.StripBy | sort_methods/multi_sort.py:209 | No stripped character at either end. |
| Text.Strip | sort_methods/prompt_filter.py:131 | No whitespace at either end. |
| Text.StripByFixed | sort_methods/multi_sort.py:209 | A text without such ends is unchanged. |
| Text.StripByIdempotent | sort_methods/multi_sort.py:209 | Stripping twice is the same as once. |
| Text.FindFrom | sort_methods/prompt_filter.py:129 | -1, or an occurrence at or after the start. |
| Text.FindFromFirst | sort_methods/prompt_filter.py:129 | It is the first occurrence, and -1 only when there is none. |
| Text.Find | sort_methods/prompt_filter.py:129 | -1, or an occurrence. |
| Text.FindFirst | sort_methods/prompt_filter.py:129 | The first occurrence, and -1 only when there is none. |
| Text.SplitOn | sort_methods/metadataextractor.py:24 | At least one piece. |
| Text.SplitChar | sort_methods/prompt_filter.py:147 | At least one piece. |
| Text.JoinSplit | sort_methods/metadataextractor.py:24-25 | Joining a split with the same separator gives the text back. |
| Text.SplitCharSeparates | sort_methods/prompt_filter.py:147 | No piece contains the separator. |
| Text.SplitCharNone | sort_methods/sort_by_resolution.py:9 | Without the separator, the split is the text alone. |
| Text.SplitCharOnce | sort_methods/sort_by_resolution.py:9 | Splitting at the only separator gives the two sides. |
| Text.SplitWhere | sort_methods/metadataextractor.py:29 | Pieces contain no separator. |
| Text.RemoveWhere | sort_methods/metadataextractor.py:15 | Removed characters are gone, and no new ones appear. |
| Text.NatStrDigits | custom_sorter.py:96 | `str(n)` is digits denoting n. |
| Text.ParseIntStr | custom_sorter.py:96 | `int(str(i)) == i`. |
| Paths.DirnameBasename | custom_sorter.py:162 | `dirname + [basename]` is the path. |
| Paths.LastIndex | sort_methods/multi_sort.py:162 | The last dot, or -1. |
| Paths.SplitExt | sort_methods/multi_sort.py:162 | Stem and extension concatenate to the name; the extension is `.` plus a dot-free text; leading dots do not start one. |
| Paths.SplitExtOf | scripts/cs_queue.py:41 | A stem and a dot-free extension split back. |
| Paths.SplitExtPath | scripts/cs_queue.py:41 | Only the last component has an extension. |
| Paths.CommonLength | sort_methods/multi_sort.py:150 | The length of the longest common prefix. |
| Paths.RelPath | custom_sorter.py:216 | Never empty. |
| Paths.RelPathBelow | custom_sorter.py:216-217 | Below its start, the relative path is the part below. |
| Paths.RelPathSame | custom_sorter.py:216 | A path relative to itself is `.`. |
| Values.Normalize | sort_methods/prompt_filter.py:53 | Drops trailing zeros while denoting the same decimal. |
| Values.ParseFloat | sort_methods/prompt_filter.py:53 | A parsed value is a normal decimal from a text with `.`. |
| Values.Coerce | sort_methods/prompt_filter.py:49-55 | An int exactly for digit strings; a float only for parseable text with `.`; otherwise the text unchanged. |
| Values.CoerceNatStr | sort_methods/prompt_filter.py:49-50 | `str(n)` is read back as the int n. |
| Values.CoerceDecimal | sort_methods/prompt_filter.py:53 | `<digits>.<digits>` is read as a float. |
| Values.NormKey | sort_methods/prompt_filter.py:45 | Never longer than the key. |
| Values.NormKeyShape | sort_methods/prompt_filter.py:45 | No space, no capital, no whitespace at the ends. |
| Values.NormKeyIdempotent | sort_methods/prompt_filter.py:143 | Normalising twice is the same as once. |
| Values.Render | sort_methods/multi_sort.py:120 | `str(v)`: a string is itself and an int is its digits. |
| Values.RenderCoercedInt | sort_methods/multi_sort.py:120 | `str` of a coerced digit string reads back as its number. |
| Values.TrimmedParts | sort_methods/prompt_filter.py:147 | The non-empty stripped parts. |
| Values.CommaList | sort_methods/metadataextractor.py:50 | Non-empty stripped parts with no comma. |
| Values.LastFor | sort_methods/prompt_filter.py:142-150 | The value of the last pair with that key, or none. |
| Values.AssignKeys | sort_methods/metadataextractor.py:122 | Afterwards the keys are the old keys plus every assigned key. |
| Values.AssignLastWins | sort_methods/prompt_filter.py:71 | The last assignment to a key wins, and keys never assigned keep their values. |
| Values.AssignValueFrom | sort_methods/prompt_filter.py:71 | Every value is an old one or an assigned one. |
| Values.AssignSnoc | sort_methods/prompt_filter.py:148-150 | Assigning one more pair is one more dict store. |
| Values.Lookup | sort_methods/prompt_filter.py:125 | Gives none exactly when the key is absent. |

## Left out

- ExifTool (`sort_methods/exif.py`, `sort_methods/find_exiftool.py`) is not part of this model. Its output is a parameter: a metadata map, or one holding `"Error"`.
- Image sizes from PIL are a parameter: a `(width, height)` per image, `(0, 0)` or `None` when the file cannot be opened.
- The JSON decoder is a parameter; `json.dump` writing, the YAML log and `FileLock` locking are left out.
- `psutil` scanning, `get_process_locking_file` and `terminate_locking_process` are left out, as are the final `PermissionError` retry of `sort_images_and_texts` (custom_sorter.py:243-250) and its `terminate_locking_process(file_path)` call (custom_sorter.py:245). In the model, deletion errors are already caught per file.
- `monitor_and_cleanup`, `attempt_move_or_copy`, `load_log`/`save_log`, `cleanup_lock_file` and the `__main__` drivers are left out: they are I/O and orchestration.
- Concurrency (the `ProcessPoolExecutor` of scripts/cs.py:139-194, `time.sleep` delays) is left out. Moves are sequential in the model.
- MoveQueue.Decide: SHA-256 is modelled as equality of contents, so a hash collision is not represented.
- PostProcessing.DeleteFileWithRetry: as written, `delete_file_with_retry` is a `classmethod` called by bare name at scripts/post_processing_manager.py:31, which raises `NameError` and is caught. The model calls the intended three-attempt loop.
- CustomSorting.CustomSorter.SortImagesAndTexts: the `os.walk` listings, move outcomes, trash outcomes and refused `rmdir`s are parameters. Its contract covers the queue. The post-processing effect on the disk is stated by `CustomSorting.CustomSorter.PostProcess`.
- An empty configuration file is not modelled. `yaml.safe_load` gives `None` for it, so `self.config.get` raises `AttributeError` in both constructors (custom_sorter.py:19, scripts/cs.py:29). `Settings.NoConfig` stands only for a missing file or one holding `{}`.
- CustomSorting.CustomSorter.constructor: each configured folder name is treated as one path component, and folder creation at construction (custom_sorter.py:53-76) is not modelled.
- The wiring of `scripts/cs.py:36-37` (`ImageSorter(self.input_folders[0], self.output_folder)` without `config`) and `sort_methods/multi_sort.py:21-24` (`MetadataExtractor(config=...)`) is not modelled. Each sorter object is built directly. Neither are the import of a `move_files` that `sort_methods/file_mover.py` does not define (sort_methods/multi_sort.py:11, called at 175) nor the undefined `pbar` in `process_images` (sort_methods/multi_sort.py:78). `MultiSort.MoveAssociated` applies `file_mover.move_file`'s `target/basename` rule to each companion instead.
- Resolution.ParseWxH: `int()` accepts surrounding whitespace, so `"512 x 512"` parses in both Python parsers but not in the model; `_` separators and non-ASCII digits are not accepted either. This applies to `Resolution.ParsePixelDimensions` and `Resolution.ParsePixelDimensionsAsWritten` alike.
- Resolution.Dimension: a configured threshold is either a `"WxH"` text or the float `inf`. A finite float (which scripts/cs.py:258-259 would pass through) and an int entry (an `AttributeError` in both parsers) are not represented.
- MultiSort.NoSegmentsInPlaceSkipped: the guard at sort_methods/multi_sort.py:150 compares a `commonpath` with an `abspath`. With the default relative folders (scripts/cs.py:29-30) and the relative paths of the walk, the two never agree, so in the source the guard never fires and an image with no segments sorted in place is not skipped. The model reads paths as absolute, where the guard does fire.
- MultiSort.Associated: `glob.glob(f"{base_name}.*")` is a pattern. In the model it is a literal prefix match over files. `[`, `*` and `?` in the path are pattern syntax in the source (`img[1].png` matches `img1.png` and not itself), and glob also returns directories such as `a.d/`, which are then moved. `MultiSort.ImageIsAssociated` is stated only for paths `glob` takes literally.
- Values.Render: `str()` of a float writes every exact decimal positionally, while Python switches to exponent form below `1e-4` and from `1e16` (`1e-05`, `1e+16`) and rounds to the shortest round-trip form (`1234.567890123457`). `repr` of a string inside a list or dict is always single-quoted, without Python's switch to double quotes or its escaping of `'` and `\`.
- Values.Coerce: `int()`/`float()` extras are not modelled. These are surrounding whitespace, `_` digit separators, `inf`/`nan`, and non-ASCII digits; text is treated as ASCII.
- Unicode case folding and `isspace` beyond ASCII are left out.
- The insertion order of top-level metadata keys is not modelled (a Dafny `map`). Nested dicts keep their order.
- Paths have no separators, `.`/`..` normalisation or drive letters; `commonpath`/`abspath` are taken on absolute component lists. `os.path.join` drops an empty middle argument, but in `MultiSort.SortedFolder` a metadata value that sanitises to `""` (such as `"___"` or `":"`) stays as an empty component.
- `Steps` is looked for in the comma-split prompt list, and only the first piece is broken at `\n` (sort_methods/metadataextractor.py:62-65), so a `Steps` after a comma in a one-string prompt is not split off.
- `sort_by_metadata` after its final `return` (sort_methods/sort_by_metadata.py:27-59) never runs and is not modelled.
- `PromptFilter.__init__`/`_read_metadata_file` and `process_metadata` are left out: file reading is the `parameters` argument.

## Findings

| source | as written | input that shows it | evidently intended | confidence | as-written member | corrected member |
|---|---|---|---|---|---|---|
| scripts/post_processing_manager.py:28 | `os.path.basename(input_file) in output_files` compares a bare name with a set of full paths | input `in/a.png`, output `out/a.png`: not selected | select input files whose basename occurs in the output tree | not executed | PostProcessing.AsWrittenMissesCopy | PostProcessing.DuplicatesShareNames |
| scripts/cs_queue.py:67 | `hashlib` is never imported, so hashing an existing destination raises `NameError`, and the generic handler drops the entry | `src` = `a.png` ("x"), `dst` = `out/a.png` ("y"): dropped, nothing moved | identical files are skipped; different ones are moved to `base_new.ext` | not executed | MoveQueue.AsWrittenDropsDifferent | MoveQueue.DifferentRenamed |
| custom_sorter.py:33, 94-99 | the default `superhigh` threshold `float("inf")` goes to a parser that calls `.split`, raising `AttributeError` | a configuration without `resolution_folders` | pass a float through, as scripts/cs.py:258-259 does | not executed | CustomSorting.DefaultTableFails | Settings.ScriptDefaults |
