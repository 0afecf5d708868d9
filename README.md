# Google Drive tools: filter builder, drive resolution and upload helpers

This project models the decision and string logic of three tools of a
Google Drive tool server: `gdrive_search`, `gdrive_upload_file` and
`gdrive_create_folder`. The three remote calls are `drives.list`,
`files.list` and `files.create`. The model takes their results as inputs.
The file system is reduced to an "exists" flag. Each tool is a Dafny
`method` that reassigns the same locals as the source:

- `driveId`, the resolved drive;
- `parentId`, which the resolved drive fills in when it is missing;
- `searchQuery`, the filter, with the parent clause appended;
- the request record, whose optional fields are set only in shared-drive mode.

Each tool returns a run record. It holds the lookup request it made (if
any), the list or create request it made (if any), and the envelope
`{ content: [{ type: "text", text }], isError }`.

Modules:

- `Strings`: the JavaScript string operations the tools use.
  - `trim` uses the ECMAScript white space and line terminator set.
  - `toLowerCase` is modelled for ASCII letters only.
  - `split` at one character and `join`.
  - `split(/\s+/)`.
  - `includes`.
  - `pop` of a split.
- `QueryEscape`: escaping of user text inside a quoted literal of the Drive query language.
  - Both escapers put a backslash before every occurrence of one character.
  - The search escaper doubles backslashes, then escapes quotes.
  - The drive-lookup escaper escapes quotes only.
- `SharedDrive`: what the three tools share.
  - The envelope.
  - The lookup request.
  - Resolution of a drive name to a drive id or to an early error envelope.
  - Defaulting of the parent folder.
  - The location line of a success message.
- `GDriveSearch`: the filter builder and the stop-word "list everything" test, the `files.list` parameters and the listing text.
- `GDriveUploadFile`: `getMimeType`, the remote name, and the upload tool.
- `GDriveCreateFolder`: the create-folder tool.

Conventions:

- An optional string the source only tests for truthiness is a `string` whose `""` stands for absent. This covers `driveName`, `parentId`, `fileName`, `nextPageToken` and `webViewLink`.
  - JavaScript treats `undefined` and `""` alike there.
  - For the same reason a drive whose id is `""` counts as unresolved.
- `pageSize` is an `int` whose `0` stands for absent, since `args.pageSize || 10` treats both alike.
- `pageToken` is forwarded to `files.list` as given, so it is an `Option<string>` that the model passes through unchanged.
- `res.data.files` may be absent. The listing then counts 0 files and prints `undefined` for the list.

The model follows the code where the written description of the search is
shorter. The code lists the whole drive in a fourth case: the query
contains "drive" and is blank once the stop words are cut out. That case
is modelled too.

The regular expression `replace` of that case is modelled as the scan a
regex engine performs on a fixed alternation. At each position the first
alternative that matches, in the order written, is removed; otherwise the
character is kept. The stop words are prefix-free
(`GDriveSearch.StopWordsPrefixFree`). So the word removed at a position is
the stop word written there, whatever its place in the list.

The drive-lookup query escapes quotes but not backslashes. The model keeps
that as written. `QueryEscape.QuoteEscapeSoundWithoutBackslash` and
`QueryEscape.QuoteEscapeUnsoundWithBackslash` prove that it is sound
exactly for names without a backslash: for every name holding one, the
literal is malformed or reads back a shorter name.
`QueryEscape.TrailingBackslashExample` shows one such name: `Team\` leaves
the closing quote escaped.

## Model

| member | source | states |
|---|---|---|
| Strings.TrimStart | tools/gdrive_search.ts:38 | the result is the suffix of the input left after a maximal run of leading ECMAScript white space |
| Strings.TrimEnd | tools/gdrive_search.ts:38 | the result is the prefix of the input left before a maximal run of trailing white space |
| Strings.ToLower | tools/gdrive_search.ts:79 | same length; each character is lowered on its own (ASCII letters only) |
| Strings.ToLowerIdempotent | tools/gdrive_upload_file.ts:151 | a lowered string has no upper-case letter, and lowering it again changes nothing |
| Strings.JoinSplit | tools/gdrive_upload_file.ts:94 | joining the pieces of `s.split(c)` with `c` gives `s` back |
| Strings.SplitJoin | tools/gdrive_search.ts:138-140 | splitting at `c` a join of pieces that hold no `c` gives exactly those pieces |
| Strings.LastSegment | tools/gdrive_upload_file.ts:94 | `split(c).pop()` is the suffix after the last `c`: a suffix holding no `c` that is the whole string when it has no `c`, and otherwise starts right after a `c` |
| Strings.LastSegmentUnique | tools/gdrive_upload_file.ts:94 | any suffix without `c` that is the whole string or follows a `c` is the last segment, so the contract of `LastSegment` determines it |
| Strings.LastSegmentEmpty | tools/gdrive_upload_file.ts:94 | the last segment is empty exactly when the string is empty or ends with `c` |
| Strings.SplitToLower | tools/gdrive_upload_file.ts:151 | splitting a lowered string gives the lowered pieces of the split |
| Strings.LastSegmentToLower | tools/gdrive_upload_file.ts:151 | lowering then taking the last `.`-segment equals taking it and then lowering |
| Strings.SplitWordsJoin | tools/gdrive_search.ts:85 | `split(/\s+/)` of words joined by single spaces gives back the words |
| Strings.JoinedWordsAreClean | tools/gdrive_search.ts:79 | lower-case words without white space, joined by spaces, are unchanged by `toLowerCase().trim()` |
| Strings.ContainsInfix | tools/gdrive_search.ts:105 | `includes` finds any text between a prefix and a suffix |
| Strings.NatToString | tools/gdrive_search.ts:142 | the decimal count is a non-empty run of digits whose decimal value is the number, with no leading zero except for `0` itself |
| QueryEscape.BackslashBefore | tools/gdrive_search.ts:47 | `replace(/x/g, "\\x")` never shortens the text and leaves a text without `x` unchanged |
| QueryEscape.EscapeRoundTrip | tools/gdrive_search.ts:89 | the escaped query never ends the literal early, and the query language reads back exactly the trimmed query |
| QueryEscape.QuoteEscapeSoundWithoutBackslash | tools/gdrive_search.ts:47 | for a drive name without a backslash the quote-only escaper gives a well-formed literal body that reads back as the name |
| QueryEscape.QuoteEscapeUnsoundWithBackslash | tools/gdrive_search.ts:47 | for every drive name with a backslash the quote-only escaper gives a malformed literal body or one that reads back another name |
| QueryEscape.QuoteEscapeShrinks | tools/gdrive_search.ts:47 | when the quote-only escaper's output is well formed, the name read back is no longer than the input, and strictly shorter when the input has a backslash |
| QueryEscape.TrailingBackslashExample | tools/gdrive_search.ts:47 | the drive name `Team\` gives a literal whose closing quote is escaped |
| SharedDrive.Reply | tools/gdrive_search.ts:149-157 | an envelope holds exactly one text item with the given text and error flag |
| SharedDrive.DriveLookup | tools/gdrive_search.ts:45-48 | the lookup asks for at most 100 drives with the query `name = '<name with quotes escaped>'` |
| SharedDrive.FailureTextsQuote | tools/gdrive_search.ts:53-72 | both failure texts contain the quoted drive name, and the lookup error contains the thrown message |
| SharedDrive.ResolveDrive | tools/gdrive_search.ts:43-73 | no lookup outcome without a name; the first drive's id when the list is non-empty; otherwise an error envelope quoting the name (and the message when the lookup threw) |
| SharedDrive.EffectiveParent | tools/gdrive_upload_file.ts:50-55 | an explicit parent is kept; a missing one becomes the drive id; it is empty exactly when both are |
| SharedDrive.LocationAfterDefaulting | tools/gdrive_create_folder.ts:105 | after defaulting, the location is the shared drive whenever one resolved, even over an explicit parent; else the parent; else the root, exactly when neither is set |
| GDriveSearch.FirstAlternative | tools/gdrive_search.ts:84 | the alternative returned starts the text and is the first one in the listed order that does; none is returned exactly when no alternative starts the text |
| GDriveSearch.StopWordsPrefixFree | tools/gdrive_search.ts:84 | no stop word is a prefix of another |
| GDriveSearch.StopWordsAreLowercaseWords | tools/gdrive_search.ts:84-85 | every stop word is a non-empty run of lower-case ASCII letters |
| GDriveSearch.FirstAlternativeIsStopWord | tools/gdrive_search.ts:84 | at a position where a stop word is written, the scan removes that stop word |
| GDriveSearch.StripLeadingStopWord | tools/gdrive_search.ts:84 | a stop word at the scan position is removed whole, whatever follows it |
| GDriveSearch.StripKeepsSpace | tools/gdrive_search.ts:84 | a space is never removed |
| GDriveSearch.StopPhraseStripsToSpaces | tools/gdrive_search.ts:84 | stop words separated by single spaces strip to white space only |
| GDriveSearch.StopPhraseStripsToBlank | tools/gdrive_search.ts:84 | so the trimmed remainder of a stop phrase is empty |
| GDriveSearch.StopPhraseWords | tools/gdrive_search.ts:85 | the words of a stop phrase are non-empty, free of white space and lower-case |
| GDriveSearch.StopPhraseIsClean | tools/gdrive_search.ts:79 | a stop phrase is unchanged by `toLowerCase().trim()` |
| GDriveSearch.StopPhraseSplits | tools/gdrive_search.ts:85 | `split(/\s+/)` of a stop phrase gives back its words |
| GDriveSearch.StopPhraseHasOnlyStopWords | tools/gdrive_search.ts:85-86 | every word of a stop phrase is a stop word, whatever the drive name |
| GDriveSearch.StopPhraseIsSuppressed | tools/gdrive_search.ts:79-86 | in a drive, a query made only of stop words lists the whole drive, whatever the drive is called |
| GDriveSearch.FileLines | tools/gdrive_search.ts:138-140 | one `<id> <name> (<mimeType>)` line per file, in order |
| GDriveSearch.ListingLines | tools/gdrive_search.ts:138-147 | the listing's lines are the count line; then one line per file, a single empty line for an empty array, or `undefined` when the array is absent; then a blank line and the page-token line only when there is a next page |
| GDriveSearch.SearchFilter | tools/gdrive_search.ts:76-117 | the filter is one of four forms: plain `trashed = false` without a query; the name clause with the sheet branch exactly when the lowered query contains "sheet"; in a drive, `trashed = false` exactly when the query lists everything; otherwise the name clause without the sheet branch. The parent clause is appended exactly in drive mode |
| GDriveSearch.Search | tools/gdrive_search.ts:34-158 | lookup only for a drive name, and an early envelope when it fails; the filter is one of four forms (plain `trashed = false`, the name clause with the sheet branch exactly when the lowered query contains "sheet", the drive-wide filter, the drive-scoped name clause without the sheet branch), with the parent clause exactly in drive mode; page size defaults to 10; `corpora` and `driveId` are set exactly in drive mode and the two all-drives flags always; the listing text, or the list call's exception escaping |
| GDriveUploadFile.Extension | tools/gdrive_upload_file.ts:151 | the extension holds no dot |
| GDriveUploadFile.ExtensionOf | tools/gdrive_upload_file.ts:151 | the extension of `<base>.<ext>`, for any base and any dot-free `ext`, is the lowered `ext` |
| GDriveUploadFile.DotlessExtension | tools/gdrive_upload_file.ts:151-167 | a path without a dot is its own lowered extension and gets the table's type for it, or the fallback |
| GDriveUploadFile.ExtensionIgnoresCase | tools/gdrive_upload_file.ts:151 | the extension does not depend on the letter case of the path |
| GDriveUploadFile.GetMimeType | tools/gdrive_upload_file.ts:150-167 | never empty; the table's type for a listed extension; `application/octet-stream` exactly when the extension is not listed |
| GDriveUploadFile.MimeTypeOfExtension | tools/gdrive_upload_file.ts:150-167 | the type of `<base>.<ext>`, for any base and any dot-free `ext`, is the table's entry for the lowered `ext`, or the fallback |
| GDriveUploadFile.MimeTypeIgnoresCase | tools/gdrive_upload_file.ts:151 | the type does not depend on the letter case of the path |
| GDriveUploadFile.WordDocumentExample | tools/gdrive_upload_file.ts:158 | for any base, `.docx` and `.DOCX` both give the wordprocessingml type |
| GDriveUploadFile.JpegExample | tools/gdrive_upload_file.ts:162-163 | for any base, `.jpg` and `.jpeg` both give `image/jpeg` |
| GDriveUploadFile.FallbackExample | tools/gdrive_upload_file.ts:167 | for any base, the unlisted extension `.tar` gives `application/octet-stream` |
| GDriveUploadFile.GetMimeTypeAsWritten | tools/gdrive_upload_file.ts:152-167 | the property read gives an inherited member exactly when the extension is `constructor` or `__proto__` |
| GDriveUploadFile.ConstructorExtension | tools/gdrive_upload_file.ts:151 | for any base, the extension of `<base>.constructor` is `constructor` |
| GDriveUploadFile.AsWrittenReturnsInheritedMember | tools/gdrive_upload_file.ts:167 | for any base, the function as written returns the inherited `constructor` member for `<base>.constructor`, not a string |
| GDriveUploadFile.AsWrittenAgreesOffPrototype | tools/gdrive_upload_file.ts:152-167 | away from the inherited keys, the function as written and the corrected one agree |
| GDriveUploadFile.RemoteName | tools/gdrive_upload_file.ts:94 | never empty; the given name if any; otherwise `uploaded-file` exactly when the path is empty or ends with `/`, and else the part of the path after its last `/` |
| GDriveUploadFile.UploadedTextLines | tools/gdrive_upload_file.ts:131 | the success text has exactly four lines: name, file id, view link (empty without a link), location |
| GDriveUploadFile.UploadFile | tools/gdrive_upload_file.ts:35-147 | lookup failures come first; a missing file gives `File not found: <path>` with no upload; the request carries the remote name, the MIME type, the path, `parents` exactly when a parent is set, and the drive flags exactly in drive mode; a thrown create gives the upload error text; success gives the four-line text; every envelope has one item |
| GDriveCreateFolder.CreatedTextLines | tools/gdrive_create_folder.ts:105 | the success text has exactly three lines: folder name, folder id, location |
| GDriveCreateFolder.CreateFolder | tools/gdrive_create_folder.ts:29-121 | a create call is made exactly when the lookup did not fail; the metadata has the folder name and the folder MIME type, and `parents` exactly when a parent is set; the drive flags are set exactly in drive mode; a thrown create gives the folder error text; success gives the three-line text; every envelope has one item |

## Left out

- The `googleapis` client is not modelled: its transport, authentication and pagination. The three calls appear only as request records the tools build and as results passed in.
- `fs.existsSync` is reduced to a flag, and `fs.createReadStream` to the path it reads.
- `async`/`await` is not modelled. Each tool is one sequential run.
- The `schema` constants of each tool file are not modelled. They are declarative JSON-schema data.
- tools/index.ts is not part of this model. It is a registry of schemas and handlers.
- Strings.ToLower: `toLowerCase` is modelled for ASCII letters only. Other Unicode case mappings, such as `É` to `é`, are not.
- GDriveSearch.Search: an exception thrown by `files.list` escapes the tool. It is recorded as an `Uncaught` outcome carrying its message, and nothing more is claimed about it.
- GDriveSearch.Search: `pageSize` is an integer. A fractional or `NaN` page size, which `args.pageSize || 10` would forward or replace, is not modelled.
- GDriveSearch.Search: `modifiedTime` and `size` are requested in `fields` but never read. The file record leaves them out.
- GDriveSearch.StripStopWords: only the fixed alternation of the search tool is modelled, not a general regular-expression engine. Its own contract states only that the result is no longer than the input. What it does is stated by the lemmas about it.
- GDriveUploadFile.AsWrittenReturnsInheritedMember: the lower-case `.constructor` extension is the only one shown. The `__proto__` key and upper-case spellings are covered only by the contract of `GDriveUploadFile.GetMimeTypeAsWritten`.
- GDriveUploadFile.UploadFile: the request carries the corrected MIME type of `GDriveUploadFile.GetMimeType`. For the extensions `constructor` and `__proto__` the code as written sends the inherited member instead (see Findings).
- Non-null assertions such as `res.data.id!` are not checked. A missing `id` or `name` in a create result is not modelled.

## Findings

| source | as written | input that shows it | evidently intended | confidence | as-written member | corrected member |
|---|---|---|---|---|---|---|
| tools/gdrive_upload_file.ts:152-167 | `mimeTypes[ext] \|\| "application/octet-stream"` reads a plain object literal, so it also finds keys the object inherits | a file path ending `.constructor` (or `.__proto__`) returns the inherited `Object` function (or `Object.prototype`) instead of a MIME type string | a MIME type string for every path, the fallback for any extension outside the table | high, not executed | GDriveUploadFile.AsWrittenReturnsInheritedMember | GDriveUploadFile.GetMimeType |
