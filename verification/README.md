# Localization stub generator, modelled in Dafny

`LocJsonPreprocessor.preprocessLocJsonFiles` turns every `.loc.json` file
the glob call returns into a TypeScript declaration stub in a mirrored
output folder. Each stub has a fixed "generated by a tool" header and a blank
line. Then, for every string in the file, in iteration order, it has an
optional `/** … */` doc block carrying the string's comment, followed by
`export declare const <name>: string;` and a blank line. Every `*/` in the
comment is rewritten to `*\/`. A file whose resolved path is in the ignore
set is skipped. The output path is the input's path relative to the source
folder, resolved against the output folder, with `.d.ts` appended.

The model is pure functions over immutable values:

- `JsText`: `String.prototype.trim` and the blank-comment test.
- `CommentEscape`: the `*/` rewrite and its properties.
- `Stub`: the line renderer, plus a loop method mirroring the push loop.
- `StubReader`: a reader for the generated lines. It is the inverse used to
  state that every entry is declared once, in order, with its doc block gated
  and escaped.
- `Preprocessor`: the ignore set, file selection, output naming, and the
  per-file run. Given that the file-system calls succeed, the run stops at
  the first file that fails validation.
- `Scenarios`: worked instances (the greeting file, an escaped comment, a
  whitespace-only comment).

The input file is a sequence of `Entry(key, comment, value)` in iteration
order. The stub is its sequence of lines, before they are joined.

In the code, the doc block's closing line is ` */`, with a leading space
(LocJsonPreprocessor.ts line 75). The model follows it.

## Model

| member | source | states |
|---|---|---|
| JsText.BlankIffTrimEmpty | webpack/localization-plugin/src/LocJsonPreprocessor.ts:71 | the renderer's blank test is exactly "trimming leaves nothing", i.e. the falsy case of `comment.trim()` |
| JsText.Trim | webpack/localization-plugin/src/LocJsonPreprocessor.ts:71 | the result is a contiguous slice of the comment and everything removed is whitespace; it neither starts nor ends with whitespace; it is empty exactly when the comment is all whitespace, so the doc-block test `comment.trim()` is `!IsBlank(comment)` |
| CommentEscape.EscapeRemovesCloses | webpack/localization-plugin/src/LocJsonPreprocessor.ts:74 | after the rewrite no `*/` remains anywhere in the comment |
| CommentEscape.EscapeIdentity | webpack/localization-plugin/src/LocJsonPreprocessor.ts:74 | the rewrite leaves a comment unchanged if and only if it contains no `*/` |
| CommentEscape.EscapeLength | webpack/localization-plugin/src/LocJsonPreprocessor.ts:74 | the rewrite grows the comment by exactly one character per `*/` occurrence, counted independently of the rewrite |
| CommentEscape.EscapeConcat | webpack/localization-plugin/src/LocJsonPreprocessor.ts:74 | a prefix without `*/` that does not end in `*` is copied unchanged, and the rest is rewritten on its own |
| Stub.DocLineHasNoClose | webpack/localization-plugin/src/LocJsonPreprocessor.ts:72-76 | the doc line ` * <escaped comment>` contains no `*/`, so only the ` */` line closes the block |
| Stub.Render | webpack/localization-plugin/src/LocJsonPreprocessor.ts:62-65 | every stub starts with the exact generated-file header line followed by an empty line |
| Stub.RenderLines | webpack/localization-plugin/src/LocJsonPreprocessor.ts:62-83 | the push loop produces exactly the lines of the recursive renderer |
| Stub.RenderLineCount | webpack/localization-plugin/src/LocJsonPreprocessor.ts:62-83 | the stub has 2 lines plus, per entry, 2 lines, or 5 when its comment is not blank |
| Stub.EntryPlacement | webpack/localization-plugin/src/LocJsonPreprocessor.ts:68-83 | entry i's lines occupy one contiguous run, starting after the header and all earlier entries' lines |
| Stub.DocBlockIffNonBlank | webpack/localization-plugin/src/LocJsonPreprocessor.ts:71-82 | the line after an entry's declaration is empty; the three lines `/**`, ` * <escaped comment>`, ` */` stand immediately before the declaration if and only if the comment is not blank |
| Stub.RenderIgnoresValues | webpack/localization-plugin/src/LocJsonPreprocessor.ts:69 | changing entries' values, with keys and comments unchanged, leaves the stub unchanged |
| StubReader.ParseRender | webpack/localization-plugin/src/LocJsonPreprocessor.ts:62-83 | reading the stub back yields exactly one declaration per entry in entry order, each with the escaped comment when the comment is not blank and none otherwise |
| StubReader.DeclarationsFollowEntries | webpack/localization-plugin/src/LocJsonPreprocessor.ts:68-82 | the declared names are the entries' keys in order, none added or dropped; a doc block is present exactly for non-blank comments and its text holds no `*/` |
| Preprocessor.Selected | webpack/localization-plugin/src/LocJsonPreprocessor.ts:55-60 | no selected path is in the ignore set, and there are never more selected paths than discovered files |
| Preprocessor.SelectedAppend | webpack/localization-plugin/src/LocJsonPreprocessor.ts:55-60 | selection keeps discovery order and decides each discovered file independently (it distributes over concatenation) |
| Preprocessor.SelectedMembership | webpack/localization-plugin/src/LocJsonPreprocessor.ts:55-60 | a path is rendered if and only if it is the resolved form of some discovered file and is not in the ignore set |
| Preprocessor.ListedFileNeverSelected | webpack/localization-plugin/src/LocJsonPreprocessor.ts:36-42 | a file in `filesToIgnore` is never rendered; absolute entries are compared as given and relative ones after resolving against the source folder |
| Preprocessor.OutputPath | webpack/localization-plugin/src/LocJsonPreprocessor.ts:85-87 | every output path ends in `.d.ts`, and removing that suffix gives the mirrored path |
| Preprocessor.OutputPathInjective | webpack/localization-plugin/src/LocJsonPreprocessor.ts:85-87 | two inputs get the same output path if and only if they have the same mirrored path |
| Preprocessor.PreprocessLocJsonFiles | webpack/localization-plugin/src/LocJsonPreprocessor.ts:30-91 | given that the file-system calls succeed, the run writes, in order, the stub and mirrored `.d.ts` path of each selected file. It either completes all of them, or stops at the first file that fails to load, which gets no stub, and keeps the stubs written before it |
| Scenarios.GreetingStub | webpack/localization-plugin/src/LocJsonPreprocessor.ts:62-83 | a file with a commented `HELLO` and an uncommented `BYE` renders to the header, one doc block, and the two declarations, each followed by an empty line |
| Scenarios.GreetingDocLine | webpack/localization-plugin/src/LocJsonPreprocessor.ts:74 | the doc line for the comment `Greeting` is ` * Greeting` |
| Scenarios.GreetingDeclLines | webpack/localization-plugin/src/LocJsonPreprocessor.ts:80 | the declarations read `export declare const HELLO: string;` and `export declare const BYE: string;` |
| Scenarios.EscapeExample | webpack/localization-plugin/src/LocJsonPreprocessor.ts:74 | the comment `end */ here` is written as `end *\/ here` |
| Scenarios.WhitespaceCommentStub | webpack/localization-plugin/src/LocJsonPreprocessor.ts:71-82 | a whitespace-only comment produces no doc block |

## Left out

- Folder clearing and creation, and file writing (`ensureEmptyFolder`, `ensureFolder`, `writeFile`, lines 44 and 88-89): file-system effects. The model returns the written stubs as values instead.
- Preprocessor.PreprocessLocJsonFiles: failures of the file-system and library calls also abort the run, and `Outcome` has no case for them. These are `ensureEmptyFolder` (line 44), `glob.sync` (line 45) and `JsonSchema.fromFile` (line 53) before any file is handled, and `ensureFolder` or `writeFile` (lines 88-89) during the run. They are not modelled.
- Glob discovery (lines 45-51): an external directory walk. The discovered list is an input sequence, taken in the order the walk returns it. The scope of the search is not modelled either. The source folder is passed as glob's `root` option, which glob applies only to patterns starting with `/`, and the pattern `**/*.loc.json` does not. A discovered file outside the source folder therefore gets a `..`-prefixed relative path, and its stub lands outside the output folder.
- Schema loading and `JsonFile.loadAndValidate` (lines 53 and 67): foreign library calls. Loading is a `load` parameter that returns the entries, or nothing when the file fails to parse or validate. The error message is not modelled, only which file caused it.
- Absolute `filesToIgnore` entries are compared as given, without normalisation, while discovered paths are resolved first. The model keeps this. Because path functions are uninterpreted, it cannot show that an unnormalised absolute entry never matches.
- Node's `path.isAbsolute`, `path.resolve`, `path.relative` and `path.dirname`: uninterpreted functions. Only how the driver combines them is verified, not path normalisation.
- Joining the lines with `os.EOL` (line 89): platform-dependent. A stub is its sequence of pushed lines, one element per `outputLines.push` item. A comment that contains a line terminator is one element, but it becomes several lines of the written file once joined. `RenderLineCount` and `StubReader` therefore count and read the pushed elements, not the lines of the joined text.
- `for…in` enumeration order, including integer-like keys enumerating first: the entries are taken in the order given.
- JsText.IsJsWhitespace: follows the ECMAScript list of WhiteSpace and LineTerminator code points, with the Unicode space separators listed explicitly for one Unicode version. JavaScript strings are UTF-16 code units, whereas Dafny characters are Unicode scalar values.
- Distinct comments can share a doc line: a comment `*/` and a comment `*\/` render the same doc line. This is inherent to the rewrite and is not a defect, so no round trip from the escaped text back to the comment is claimed.
