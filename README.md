# syntax-annotation: a verified model of the `@Syntax` annotation processor

The `@Syntax(X.class)` annotation marks a `String` field or local variable whose initializer
must be valid in some syntax (XML, JSON, regular expressions, Turtle). At compile time,
`SyntaxProcessor` does the following:

1. It listens for the end of the compiler's ANALYZE phase.
2. It walks the analyzed class and picks the variables whose type prints as `String` and
   that have an initializer.
3. For each such variable, it resolves which validator classes the annotations name.
4. It decodes the initializer's text.
5. It applies each validator to the decoded text.
6. For every validator that returns a message, it prints one ERROR diagnostic. The
   diagnostic shows the validator's simple name, the decoded value with numbered lines, and
   the message.

This project models that engine in Dafny and proves what it does.

- `wrappers.dfy`: `Option`.
- `literal.dfy` (module `Literal`): `unescapeLiteral`. It strips the first and last
  character, then replaces backslash-`n` and then backslash-quote in one left-to-right pass
  each. The compiler's printing of a string constant (javac escapes backspace, form feed,
  newline, carriage return, tab, apostrophe, quote and backslash, and writes every other
  character outside printable ASCII as a `\u` escape) is modelled as `Literal.Quote`.
  Decoding is proved to invert it exactly for values made of newlines and printable ASCII
  other than backslash and apostrophe. For a value without a backslash, every other
  character is proved to reach the validator as javac prints it, so a tab arrives as
  backslash-`t`. A backslash followed by `n` becomes backslash-newline.
- `line_numbers.dfy` (module `LineNumbers`): `addLineNumbers`. This includes Java's
  `String.split("\n")`: trailing empty pieces are dropped, and an input without newline is a
  single piece. It also includes `%3d` decimal formatting. The output is proved to be
  exactly the numbered input lines.
- `extractor.dfy` (module `ArgumentExtractor`): the `AnnotationArgumentExtractor` visitor.
  Tree nodes carry the type string that the source reads reflectively. The "hint" context
  is a boolean. `Class.forName` is membership in a set of loadable names. The
  `RuntimeException.class` sentinel is the name `java.lang.RuntimeException`, so a loaded
  class of that name is filtered exactly as in Java.
- `processor.dfy` (module `SyntaxProcessor`) holds the scan:
  - Specification functions for one declaration and for a whole class tree, with their
    properties.
  - The class `Processor`. Its append-only `messages` field is the compiler's message
    sink. A ghost log records every validator invocation. Its methods follow the source's
    control flow and are proved against the specification functions.
  - The source's decoder exception, as written (see Findings).

Validators are opaque functions from a string to a `Verdict`: valid, a message, or an
exception. A class that cannot be instantiated has no instance. The scan's result is a
function of the environment and the tree, so scanning an unchanged unit twice gives the
same diagnostics.

The class's Javadoc (SyntaxProcessor.java:37-39) describes the processor as looking for
`@Syntax` on string literals and string fields. The code behaves differently in some
respects, and the model follows the code:

- Any non-null initializer is decoded, not only string literals.
- The type check is textual: `java.lang.String s = "…"` is not checked.
- The initializer is decoded even when no validator was found.
- The marker is recognised only as a simple identifier whose type string is the marker's
  name. The qualified form `@de.atextor.syntax.annotation.Syntax(X.class)` is skipped
  (`ArgumentExtractor.QualifiedMarkerSkipped`).
- Line numbers are padded with spaces to width 3, not with zeros.

## Model

| member | source | states |
|---|---|---|
| `Literal.ReplaceEscape` | src/main/java/de/atextor/syntax/annotation/processor/SyntaxProcessor.java:116-117 | one `replaceAll` pass over a fixed backslash pair never lengthens the string |
| `Literal.ReplaceEscapeUnchanged` | src/main/java/de/atextor/syntax/annotation/processor/SyntaxProcessor.java:116-117 | a pass leaves a string without its backslash pair unchanged |
| `Literal.ReplaceEscapeReplaces` | src/main/java/de/atextor/syntax/annotation/processor/SyntaxProcessor.java:116-117 | a pass replaces: the first backslash pair of its kind, after a backslash-free prefix, becomes the replacement character, and the pass continues after the pair |
| `Literal.Unescape` | src/main/java/de/atextor/syntax/annotation/processor/SyntaxProcessor.java:114-118 | decoding fails (the `substring` exception) exactly for tokens shorter than two characters; the result is at most the token minus its two ends; a token with no backslash decodes to its inner substring verbatim |
| `Literal.Quote` | src/main/java/de/atextor/syntax/annotation/processor/SyntaxProcessor.java:174 | an assumption about the compiler, not code of this repository: the literal token `initializer.toString()` prints for a string constant, which starts and ends with a quote |
| `Literal.NewlinePassInvertsQuote` | src/main/java/de/atextor/syntax/annotation/processor/SyntaxProcessor.java:116 | for a value of newlines and printable ASCII other than backslash and apostrophe, the backslash-`n` pass over the printed token body restores the newlines and leaves every escaped quote in place |
| `Literal.QuotePassInvertsEscape` | src/main/java/de/atextor/syntax/annotation/processor/SyntaxProcessor.java:117 | for a backslash-free value, the backslash-quote pass restores every quote |
| `Literal.UnescapeQuoteRoundTrip` | src/main/java/de/atextor/syntax/annotation/processor/SyntaxProcessor.java:114-118 | decoding the compiler's literal token gives back the value for every value made of newlines and printable ASCII other than backslash and apostrophe |
| `Literal.QuotedValueDecoding` | src/main/java/de/atextor/syntax/annotation/processor/SyntaxProcessor.java:114-118 | for every value without a backslash, decoding the compiler's literal token restores each newline and quote and leaves every other character exactly as javac printed it, in order |
| `Literal.EscapedBackslashIsMisdecoded` | src/main/java/de/atextor/syntax/annotation/processor/SyntaxProcessor.java:114-118 | the known limitation: the value backslash-`n`, printed as `"\\n"`, decodes to backslash-newline |
| `Literal.SingleCharacterDecoding` | src/main/java/de/atextor/syntax/annotation/processor/SyntaxProcessor.java:114-118 | a one-character value decodes to itself exactly when it is a newline or printable ASCII other than backslash and apostrophe; every other character reaches the validator as javac's escape for it |
| `Literal.TabIsMisdecoded` | src/main/java/de/atextor/syntax/annotation/processor/SyntaxProcessor.java:114-118 | a tab value, printed as backslash-`t`, reaches the validator as backslash-`t` |
| `Literal.NonAsciiIsMisdecoded` | src/main/java/de/atextor/syntax/annotation/processor/SyntaxProcessor.java:114-118 | the value `é`, printed as `\u00e9`, reaches the validator as those six characters |
| `LineNumbers.Digits` | src/main/java/de/atextor/syntax/annotation/processor/SyntaxProcessor.java:152 | `%d` writes at least one decimal digit and nothing else, with no leading zero; numbers below 10, 100 and 1000 take at most 1, 2 and 3 digits |
| `LineNumbers.DigitsRoundTrip` | src/main/java/de/atextor/syntax/annotation/processor/SyntaxProcessor.java:152 | reading the written digits back gives the number |
| `LineNumbers.Pad3` | src/main/java/de/atextor/syntax/annotation/processor/SyntaxProcessor.java:152 | the `%3d` field is at least three characters and holds no newline |
| `LineNumbers.Pad3Aligned` | src/main/java/de/atextor/syntax/annotation/processor/SyntaxProcessor.java:152 | the `%3d` field is the digits right-aligned with spaces in width 3: exactly 3 characters below 1000, never truncated |
| `LineNumbers.RawSplit` | src/main/java/de/atextor/syntax/annotation/processor/SyntaxProcessor.java:150 | the pieces between newlines: at least one, none containing a newline |
| `LineNumbers.RawSplitJoin` | src/main/java/de/atextor/syntax/annotation/processor/SyntaxProcessor.java:150 | joining the pieces with newlines rebuilds the input |
| `LineNumbers.RawSplitLength` | src/main/java/de/atextor/syntax/annotation/processor/SyntaxProcessor.java:150 | there is one more piece than there are newlines |
| `LineNumbers.DropTrailingEmpty` | src/main/java/de/atextor/syntax/annotation/processor/SyntaxProcessor.java:150 | dropping trailing empty pieces keeps a prefix, removes only empty pieces, leaves no trailing empty piece, and empties the list exactly when every piece was empty |
| `LineNumbers.SplitLines` | src/main/java/de/atextor/syntax/annotation/processor/SyntaxProcessor.java:150 | no piece of `split("\n")` contains a newline |
| `LineNumbers.SplitLinesJoin` | src/main/java/de/atextor/syntax/annotation/processor/SyntaxProcessor.java:150 | joining the pieces of `split("\n")` with newlines gives the input without its trailing newlines |
| `LineNumbers.SplitLinesEmpty` | src/main/java/de/atextor/syntax/annotation/processor/SyntaxProcessor.java:150 | `split` yields no piece exactly for a non-empty run of newlines, and one empty piece for the empty string |
| `LineNumbers.NumberedLine` | src/main/java/de/atextor/syntax/annotation/processor/SyntaxProcessor.java:152 | one `%3d: %s\n` line ends in its only newline and is at least six characters longer than its piece |
| `LineNumbers.AddLineNumbersLines` | src/main/java/de/atextor/syntax/annotation/processor/SyntaxProcessor.java:149-154 | cut at its newlines, the output is exactly the input's lines in order, line k prefixed by k+1 right-aligned to width 3 and `": "`, each ended by a newline |
| `LineNumbers.AddLineNumbersNewlines` | src/main/java/de/atextor/syntax/annotation/processor/SyntaxProcessor.java:149-154 | the output holds exactly one newline per piece of the input |
| `LineNumbers.AddLineNumbers` | src/main/java/de/atextor/syntax/annotation/processor/SyntaxProcessor.java:149-154 | the output is empty exactly when the input is a non-empty run of newlines, and otherwise ends in a newline |
| `LineNumbers.AddLineNumbersOfEmpty` | src/main/java/de/atextor/syntax/annotation/processor/SyntaxProcessor.java:149-154 | an empty value is shown as the single line `  1: ` |
| `ArgumentExtractor.Accept` | src/main/java/de/atextor/syntax/annotation/processor/SyntaxProcessor.java:198-212 | the visitor never fails: every result is the sentinel, the annotation class, or a loadable class |
| `ArgumentExtractor.VisitAnnotation` | src/main/java/de/atextor/syntax/annotation/processor/SyntaxProcessor.java:215-227 | an annotation yields the sentinel, the annotation class or a loadable class |
| `ArgumentExtractor.VisitAssignment` | src/main/java/de/atextor/syntax/annotation/processor/SyntaxProcessor.java:230-237 | an assignment yields the sentinel, the annotation class or a loadable class |
| `ArgumentExtractor.VisitMemberSelect` | src/main/java/de/atextor/syntax/annotation/processor/SyntaxProcessor.java:240-257 | a member select resolves only under the hint, with a type string starting `java.lang.Class<`, to the loadable name between index 16 and the last character |
| `ArgumentExtractor.VisitIdentifier` | src/main/java/de/atextor/syntax/annotation/processor/SyntaxProcessor.java:260-267 | an identifier resolves only under the hint and only to the annotation class, when its type string is that class's name |
| `ArgumentExtractor.NoHintNoResolution` | src/main/java/de/atextor/syntax/annotation/processor/SyntaxProcessor.java:209-266 | without the hint, assignments, member selects and identifiers give the sentinel; an unhandled node kind always does |
| `ArgumentExtractor.AnnotationRecognition` | src/main/java/de/atextor/syntax/annotation/processor/SyntaxProcessor.java:215-227 | an annotation resolves only if its type node resolves under the hint and its argument list is non-null of size 1, and then it gives its argument's result under the hint |
| `ArgumentExtractor.AssignmentRecognition` | src/main/java/de/atextor/syntax/annotation/processor/SyntaxProcessor.java:230-237 | an assignment gives its right-hand side's result under the hint and the sentinel outside it |
| `ArgumentExtractor.IdentifierRecognition` | src/main/java/de/atextor/syntax/annotation/processor/SyntaxProcessor.java:260-267 | an identifier resolves if and only if the hint is set and its type string is the annotation class's name |
| `ArgumentExtractor.ClassLiteralResolution` | src/main/java/de/atextor/syntax/annotation/processor/SyntaxProcessor.java:240-257 | a class literal of type `java.lang.Class<N>` resolves to N under the hint when N loads, otherwise to the sentinel |
| `ArgumentExtractor.NonClassMemberSelect` | src/main/java/de/atextor/syntax/annotation/processor/SyntaxProcessor.java:246-250 | a member select whose type is not a class type never resolves |
| `ArgumentExtractor.SyntaxUseResolves` | src/main/java/de/atextor/syntax/annotation/processor/SyntaxProcessor.java:215-257 | `@Syntax(value = X.class)` yields X when X loads and the sentinel otherwise |
| `ArgumentExtractor.ForeignAnnotationSkipped` | src/main/java/de/atextor/syntax/annotation/processor/SyntaxProcessor.java:215-227 | an annotation of another type yields the sentinel whatever its arguments |
| `ArgumentExtractor.QualifiedMarkerSkipped` | src/main/java/de/atextor/syntax/annotation/processor/SyntaxProcessor.java:215-257 | the marker written with its qualified name yields the sentinel |
| `SyntaxProcessor.Eligible` | src/main/java/de/atextor/syntax/annotation/processor/SyntaxProcessor.java:165-166 | only a variable with an initializer whose type prints exactly as `String` is checked |
| `SyntaxProcessor.Check` | src/main/java/de/atextor/syntax/annotation/processor/SyntaxProcessor.java:176-179 | only a class that loads and can be instantiated with its default constructor passes or fails; for any other class the loop's `catch` swallows the exception |
| `SyntaxProcessor.Reports` | src/main/java/de/atextor/syntax/annotation/processor/SyntaxProcessor.java:175-188 | the validator loop emits at most one diagnostic per validator |
| `SyntaxProcessor.DeclarationDiagnostics` | src/main/java/de/atextor/syntax/annotation/processor/SyntaxProcessor.java:164-188 | at most one diagnostic per collected validator, and at most one per annotation; none for a declaration that is not checked or whose initializer text is under two characters |
| `SyntaxProcessor.CheckerClasses` | src/main/java/de/atextor/syntax/annotation/processor/SyntaxProcessor.java:169-172 | the collected validators are never the sentinel, each is the marker or a loadable class, and there are no more of them than annotations |
| `SyntaxProcessor.CheckerClassesAppend` | src/main/java/de/atextor/syntax/annotation/processor/SyntaxProcessor.java:169-172 | collection preserves annotation order: the validators of two runs of annotations are those of the first run, then those of the second |
| `SyntaxProcessor.CheckerClassesExactly` | src/main/java/de/atextor/syntax/annotation/processor/SyntaxProcessor.java:169-172 | a class is collected if and only if it is not the sentinel and some annotation resolves to it |
| `SyntaxProcessor.ForeignAnnotationIgnored` | src/main/java/de/atextor/syntax/annotation/processor/SyntaxProcessor.java:169-172 | inserting an unresolvable annotation anywhere leaves the collected validators unchanged |
| `SyntaxProcessor.ReportsAppend` | src/main/java/de/atextor/syntax/annotation/processor/SyntaxProcessor.java:175-188 | a validator's outcome, an `Exception` included, never stops the later validators: diagnostics and invocations of two runs of validators are concatenated |
| `SyntaxProcessor.ReportsAreFailures` | src/main/java/de/atextor/syntax/annotation/processor/SyntaxProcessor.java:175-188 | exactly one diagnostic per failing validator, in order, each an ERROR on the declaration and unit carrying that validator's formatted message; passing or throwing validators add none |
| `SyntaxProcessor.FailureMessage` | src/main/java/de/atextor/syntax/annotation/processor/SyntaxProcessor.java:181-183 | the diagnostic text starts with `<SimpleName> syntax validation failed:` and ends with the validator's message |
| `SyntaxProcessor.IneligibleIsSilent` | src/main/java/de/atextor/syntax/annotation/processor/SyntaxProcessor.java:165-168 | a declaration without initializer or whose type does not print as `String` yields no diagnostic and no validator invocation |
| `SyntaxProcessor.DeclarationDiagnosticsIff` | src/main/java/de/atextor/syntax/annotation/processor/SyntaxProcessor.java:164-190 | a declaration has a diagnostic if and only if it is eligible, its initializer decodes, and one of its collected validators fails on the decoded value |
| `SyntaxProcessor.InvocationsShareDecodedValue` | src/main/java/de/atextor/syntax/annotation/processor/SyntaxProcessor.java:174-179 | every validator invoked is a collected, loadable one, and all of them get the same value, decoded once |
| `SyntaxProcessor.DeclarationDiagnosticsAttached` | src/main/java/de/atextor/syntax/annotation/processor/SyntaxProcessor.java:180-183 | every diagnostic of a declaration is an ERROR attached to that declaration and its compilation unit |
| `SyntaxProcessor.UnitDiagnosticsAppend` | src/main/java/de/atextor/syntax/annotation/processor/SyntaxProcessor.java:189 | the traversal always continues: the diagnostics and invocations of a run of declarations are those of its parts in source order |
| `SyntaxProcessor.UnitDiagnosticsOrigin` | src/main/java/de/atextor/syntax/annotation/processor/SyntaxProcessor.java:164-190 | every diagnostic of a unit is an ERROR on that unit attached to one of its eligible declarations |
| `SyntaxProcessor.Processor.constructor` | src/main/java/de/atextor/syntax/annotation/processor/SyntaxProcessor.java:63-68 | a processor starts with its environment, no diagnostics and no invocations |
| `SyntaxProcessor.Processor.IndicateError` | src/main/java/de/atextor/syntax/annotation/processor/SyntaxProcessor.java:103-105 | appends one ERROR diagnostic with the message, location and unit, and changes nothing else |
| `SyntaxProcessor.Processor.Finished` | src/main/java/de/atextor/syntax/annotation/processor/SyntaxProcessor.java:126-134 | only an ANALYZE event adds diagnostics and invocations, namely those of the event's type tree; any other kind changes nothing |
| `SyntaxProcessor.Processor.Scan` | src/main/java/de/atextor/syntax/annotation/processor/SyntaxProcessor.java:141-190 | scanning a tree appends the diagnostics and invocations of its declarations in visiting order |
| `SyntaxProcessor.Processor.ScanChildren` | src/main/java/de/atextor/syntax/annotation/processor/SyntaxProcessor.java:189 | scanning the children appends their declarations' diagnostics and invocations in source order |
| `SyntaxProcessor.Processor.VisitVariable` | src/main/java/de/atextor/syntax/annotation/processor/SyntaxProcessor.java:164-190 | the variable's own diagnostics come first, then those of the trees nested in it |
| `SyntaxProcessor.Processor.CheckDeclaration` | src/main/java/de/atextor/syntax/annotation/processor/SyntaxProcessor.java:165-188 | the validator loop appends exactly the declaration's specified diagnostics and invocations |
| `SyntaxProcessor.VisitVariableAsWritten` | src/main/java/de/atextor/syntax/annotation/processor/SyntaxProcessor.java:164-174 | as written, a declaration aborts the compilation, before any of its validators runs, exactly when it is eligible with an initializer text under two characters; otherwise it agrees with the corrected model |
| `SyntaxProcessor.ScanAsWritten` | src/main/java/de/atextor/syntax/annotation/processor/SyntaxProcessor.java:164-190 | as written, a unit's scan aborts exactly when one of its declarations does, after printing the diagnostics of the declarations before the first such one; otherwise it yields the corrected model's diagnostics |
| `SyntaxProcessor.OneLetterInitializerAbortsScan` | src/main/java/de/atextor/syntax/annotation/processor/SyntaxProcessor.java:174 | `String s = a;` before a broken JSON field aborts the scan as written with nothing printed, while the corrected scan reports the JSON field once |

## Left out

- The validators `XML`, `JSON`, `Turtle` and `RegExp` wrap foreign parsers. A validator is
  an opaque function, and its message texts come from those libraries.
- `jbUnwrap`, the IntelliJ proxy unwrapping, is not modelled. It is reflective glue specific
  to one IDE.
- `init`, `addTaskListener`, the no-op `process`, and `Trees.getPath` are host-compiler
  plumbing. An event carries its type's tree directly. A `null` path, which would make the
  listener throw, is not modelled.
- `accessTypeField` reads `JCTree.type` by reflection. The type string is a field of the
  node instead. A node whose type field holds `null`, which would make `toString` throw,
  is not modelled; an absent type string stands for the source's empty `Optional`.
- `Class.forName` errors other than `ClassNotFoundException` are not modelled. These
  include linkage errors and failing static initializers, which the source does not catch.
- Diagnostic positions: a diagnostic points at its declaration node. The line and column
  the compiler derives from it are not modelled.
- `Class.getSimpleName` is not modelled. The simple name is stored with each loadable class
  rather than derived from the name.
- `%d` is modelled with ASCII digits. Locales with other digit characters are not covered.
- Strings are sequences of Unicode characters. The decoder and the line splitter work on
  characters rather than on UTF-16 code units; only `Literal.Quote` writes a character
  above U+FFFF as its two surrogate escapes.
- javac's literal printer is not part of this model. `Literal.Quote` stands in for it and
  follows javac's `Convert.quote` escapes. An initializer that is not a single string
  constant (a concatenation, a method call) is taken as the text it prints as.
- `SyntaxProcessor.Verdict`: `Threw` stands for an `Exception` only, which the `catch` at
  SyntaxProcessor.java:184 swallows. An `Error` thrown by a validator's constructor or
  `apply` (for instance `NoClassDefFoundError` when an optional parser library is absent)
  escapes the loop and ends the compilation; that outcome is not modelled, so
  `SyntaxProcessor.ReportsAppend` and the scan hold only for validators that throw no `Error`.
- Concurrency is not modelled. The compiler calls the listener from one thread.
- `ArgumentExtractor.VisitMemberSelect`: a type string that is exactly `java.lang.Class<`
  makes the source's `substring(16, 15)` throw. The model returns the sentinel instead.
  The compiler never prints a class type without its type argument.

## Findings

| source | as written | input that shows it | evidently intended | confidence | as-written member | corrected member |
|---|---|---|---|---|---|---|
| src/main/java/de/atextor/syntax/annotation/processor/SyntaxProcessor.java:174 | the initializer of every `String` variable is decoded, annotated or not, outside the `try`. `substring(1, length() - 1)` throws on a text shorter than two characters, and the exception escapes the task listener and ends the compilation | `String s = a;` anywhere in a compiled class, even without `@Syntax` | a declaration whose initializer text cannot be decoded is skipped, and the scan goes on to later declarations | medium, not executed | `SyntaxProcessor.ScanAsWritten` | `SyntaxProcessor.Processor.CheckDeclaration` |
