# Rustlets, modelled and proved

A Dafny model of the parts of Rustlets that decide what a build sends, what a
name or a duration means, in what order services start, and what survives a
stream cut into pieces; with proofs that hold for every input and every run.
`dafny verify dfyconfig.toml` checks all of it.

| file | what it models | what it is proved against |
|---|---|---|
| `Ignore.dfy` | ignore rules: compiling a glob, its fast paths, `excludes`, `may_include_below` | the translated expression, and "the last rule that touches a path decides" |
| `Context.dfy` | packing a build context: the pruned walk with its stack of pending directories | the preorder of the tree, filtered by "kept" |
| `Project.dfy` | the start order of a compose project and the cycle it reports | chains of dependencies; all orders, compared by file position |
| `CanonicalJson.dfy` | the text a configuration is hashed by | equality of values up to the order of keys |
| `Expand.dfy` | Containerfile words: quotes, escapes, `$NAME`, `${NAME…}` | the eager evaluation of a template |
| `Interpolate.dfy` | compose substitution | the lazy evaluation of a template |
| `Dotenv.dfy` | dotenv files | a writer that quotes any value |
| `Duration.dfy` | Go durations, printed and parsed | each other, and the exact value of what is written |
| `Body.dfy` | a request body piped from a blocking writer through a bounded channel | every interleaving of its steps |
| `Ndjson.dfy` | NDJSON lines and items out of arbitrary frames | splitting the whole body at its newlines |
| `NaturalOrder.dfy` | the natural order of names | token sequences in lexicographic order |
| `Path.dfy` | path cleaning, and `WORKDIR` | normal forms and the laws of joining |
| `Plan.dfy` | which stages a build needs | the least closed set of stages |
| `Relay.dfy` | the detach keys | the first place they occur in the whole input |
| `Common.dfy` | options, results, decimal digits, the byte order of names, the operators of parameter expansion | |

Code that works on mutable state is modelled as classes and methods
(`Packer`, `Lexer`, `Parser`, `Pipe`, `LineBuffer`, `Stream`, `DetachKeys`,
`ImageConfig`, and the loops of `compile`, `excludes`, `dependency_order`,
`parse_duration`, `natural_cmp`, `plan`, `clean`); each is proved equal to a
function, and the laws are proved of that function.

## Findings

- `Pattern::compile` writes a `^` of a glob into its expression unescaped, so
  there it is an anchor, not a character. A glob that starts with `^` and has
  a wildcard matches paths that do not start with its literal prefix, on which
  `may_include_below` relies: with the rules `dir` and `!^dir/*`, the file
  `dir/name` is not excluded and yet is never packed
  (`Context.StrayExceptionLosesFile`). When this happens is exact at every
  level: for one pattern (`Ignore.PrefixLawExact`, `Ignore.FastPathExact`),
  for a rule list (`Ignore.PruningExact`, `Ignore.ExceptionExact`) and for a
  context (`Context.WalkIsKept`, `Context.Pack`); without such an exception
  everything is as documented.
- `**text` with no `/` after its stars is a suffix test, as documented, and so
  accepts more than the translation `(.*/)?text` does
  (`Ignore.DoubleStarText`).
- `parse_duration` reads back all that `format_duration` writes below 2^64
  nanoseconds and refuses all that it writes above; a `Duration` can hold more.
- `clean(p/q) == clean(clean(p)/q)` fails for the empty `p`, and for no other
  (`Path.CleanThenJoin`).

## Model

| member | source | states |
|---|---|---|
| `Ignore.Compile` | crates/rustlet-build/src/ignore.rs:138-232 | the loop refuses exactly the texts whose class or escape the expression engine refuses, settles on the kind that the shape of the text determines, and gives a pattern that matches exactly the paths that can be cut along the text |
| `Ignore.GlobMeans` | crates/rustlet-build/src/ignore.rs:138-243 | what a compiled pattern matches, from the characters of its text alone: a plain character itself, `?` one that is no `/`, `*` a run without `/`, `**` before the end nothing or whole directories, a final `**` anything on a line, `^` the start; plain text, `text**` and `**text` by equality, prefix and suffix |
| `Ignore.TranslationGlobs` | crates/rustlet-build/src/ignore.rs:150-216 | at every place of text and path, the expression built for the rest of the text matches what can be cut along that rest |
| `Ignore.Step` | crates/rustlet-build/src/ignore.rs:150-216 | each turn for `**`, `*`, `?` or a plain character keeps the expression built so far followed by the translation of what is left equal to the whole translation, and the type equal to that of the text read |
| `Ignore.Finish` | crates/rustlet-build/src/ignore.rs:217-232 | the type reached at the end gives the kind determined by the text alone |
| `Ignore.MatchIsCut` | crates/rustlet-build/src/ignore.rs:150-216 | an expression matches exactly the texts that can be cut into one text for each of its elements: the character, any but `/`, a run without `/`, directories, or anything |
| `Ignore.MatchPlain` | crates/rustlet-build/src/ignore.rs:138-243 | away from the start, plain text in an expression matches itself and nothing else, and nothing at all if it holds a `^` |
| `Ignore.MatchStartsWithPrefix` | crates/rustlet-build/src/ignore.rs:234-249 | every path an unanchored pattern of any kind matches starts with its literal prefix |
| `Ignore.PrefixLawExact` | crates/rustlet-build/src/ignore.rs:246-249 | all matches of a pattern without classes and escapes start with its literal prefix if and only if it is not stray: an expression that starts with `^` and can match something |
| `Ignore.FastPathRefines` | crates/rustlet-build/src/ignore.rs:234-243 | plain text, `text**`, `**` and `**/text` accept exactly the newline-free paths their expressions accept |
| `Ignore.FastPathExact` | crates/rustlet-build/src/ignore.rs:217-243 | for those shapes a fast path agrees with its expression on all newline-free paths if and only if the text has no `^` |
| `Ignore.SuffixMatch` | crates/rustlet-build/src/ignore.rs:234-243 | the expression of `**/text` accepts `text` and the paths that end in `/text` |
| `Ignore.DoubleStarText` | crates/rustlet-build/src/ignore.rs:234-243 | `**text` accepts every path that ends in `text`, its expression only those where a name starts there |
| `Ignore.Excludes` | crates/rustlet-build/src/ignore.rs:79-92 | skipping the rules that could not change the answer gives the verdict of the last rule that matches the path or a parent |
| `Ignore.TouchesMeans` | crates/rustlet-build/src/ignore.rs:80-90 | a rule touches exactly the paths its text accepts and everything below them |
| `Ignore.UntouchedIsIncluded` | crates/rustlet-build/src/ignore.rs:81 | a path no rule touches is not excluded |
| `Ignore.LastRuleDecides` | crates/rustlet-build/src/ignore.rs:81-91 | the last rule that touches a path excludes it if and only if it is no exception |
| `Ignore.TouchesParent` | crates/rustlet-build/src/ignore.rs:80-90 | a rule is found to touch a path exactly if it matches the path or one of its parents |
| `Ignore.TouchesBelow` | crates/rustlet-build/src/ignore.rs:79-92 | a rule that touches a directory touches all below it; one that touches a path below but not the directory matches some path below |
| `Ignore.LastTouch` | crates/rustlet-build/src/ignore.rs:79-92 | where an excluding rule touches a path and no later exception does, the path is excluded |
| `Ignore.ExceptionReaches` | crates/rustlet-build/src/ignore.rs:96-104 | an exception that is not stray and touches something below a directory, and not the directory, makes `may_include_below` true of it |
| `Ignore.PruningSound` | crates/rustlet-build/src/ignore.rs:79-104 | below an excluded directory that `may_include_below` denies, every path is excluded, unless a stray exception reaches below that directory |
| `Ignore.PruningExact` | crates/rustlet-build/src/ignore.rs:79-104 | for all rules: something below a pruned directory is not excluded if and only if a stray exception has the last word on a path below it |
| `Ignore.ExceptionExact` | crates/rustlet-build/src/ignore.rs:96-104 | added to any rules that prune a directory rightly, an exception has it pruned wrongly if and only if it is an expression that starts with `^` and reaches below the directory |
| `Ignore.AnchoredExceptionIsPruned` | crates/rustlet-build/src/ignore.rs:96-104 | for every plain directory there is such an exception: `!^dir/*` leaves it pruned and its files not excluded |
| `Context.Packer.Entry` | crates/rustlet-build/src/context.rs:200-247 | one entry adds exactly the items of its subtree as the pruned walk defines them, behind the pending directories if there are any, and counts what was skipped |
| `Context.Packer.Include` | crates/rustlet-build/src/context.rs:229-246 | an included entry flushes the pending directories and then adds itself and what is below it |
| `Context.Packer.Speculate` | crates/rustlet-build/src/context.rs:204-228 | an excluded directory appears just before the first thing below it that is kept, and not at all, counted once, when there is none |
| `Context.Packer.Walk` | crates/rustlet-build/src/context.rs:176-198 | a directory's entries are added in byte order of their names, a Containerfile from outside in the place of its name |
| `Context.Packer.WalkSorted` | crates/rustlet-build/src/context.rs:186-197 | the loop adds the items of the names in turn, and leaves pending directories only if it added nothing |
| `Context.Packer.FlushPending` | crates/rustlet-build/src/context.rs:251-256 | the pending directories go into the archive outermost first, each counted, and none stays |
| `Context.Packer.Append` | crates/rustlet-build/src/context.rs:258-284 | an item is appended and the totals stay those of the archive |
| `Context.PrunedItems` | crates/rustlet-build/src/context.rs:200-228 | with no stray exception, pruning changes nothing of any subtree |
| `Context.PrunedExactly` | crates/rustlet-build/src/context.rs:200-228 | for all rules and trees: the pruned walk of a tree gives a part of the unpruned one, and the same if and only if no node it does not look into has something wanted at or below it |
| `Context.ItemsAreKept` | crates/rustlet-build/src/context.rs:176-247 | the unpruned walk of any tree gives its preorder filtered to what is kept, and gives nothing exactly if nothing in the tree is wanted |
| `Context.WalkIsKept` | crates/rustlet-build/src/context.rs:176-247 | for all rules: the pruned walk of the whole context meets exactly the kept entries of its sorted preorder if and only if it loses nothing, that is, has nothing wanted below what it does not look into |
| `Context.PrunableLosesNothing` | crates/rustlet-build/src/context.rs:176-247 | with no stray exception the walk of every context loses nothing |
| `Context.LostToStray` | crates/rustlet-build/src/context.rs:200-228 | whatever the walk loses, a stray exception had the last word on |
| `Context.StrayExceptionLosesFile` | crates/rustlet-build/src/context.rs:200-228 | with the rules `dir` and `!^dir/*`, the context of one directory with one file is packed as nothing, though both are to be kept |
| `Context.ItemsDistinct` | crates/rustlet-build/src/context.rs:176-247 | no path is packed twice, whatever the rules |
| `Context.ItemsParentsFirst` | crates/rustlet-build/src/context.rs:200-256 | every directory is packed before what it holds, whatever the rules |
| `Context.AllAccounted` | crates/rustlet-build/src/context.rs:200-247 | every entry the walk meets is packed, counted as excluded once, or a special file it passes over |
| `Context.ArchiveShape` | crates/rustlet-build/src/context.rs:129-157 | the archive of a context has distinct paths and every entry's directory before it |
| `Context.ArchiveByTree` | crates/rustlet-build/src/context.rs:176-284 | the archive in the terms of the tree's names and the rules alone: only nodes, all that is asked for, and of the rest exactly what no rule excludes and the directories above what is there |
| `Context.AskedIsPacked` | crates/rustlet-build/src/context.rs:200-206 | a path that is packed in any case is in the archive whatever the rules are, and so is every directory above it |
| `Context.EverythingIsContext` | crates/rustlet-build/src/context.rs:176-197 | the walk's preorder holds exactly the nodes the tree has by their names, an outside Containerfile in the place of what has its name |
| `Context.ArchiveInOrder` | crates/rustlet-build/src/context.rs:185 | of two entries of a directory the one with the smaller name, and all below it, comes first |
| `Context.Pack` | crates/rustlet-build/src/context.rs:129-157 | for any rules: every item is a node of the context, with its size or target; everything asked for in any case, and the Containerfile from outside, is there; entries come in byte order, directory by directory, none twice, parents first; totals are the archive's and all that was met is accounted for. Where no exception is stray, any other node is there if and only if no rule excludes its path or, for a directory, something below it is there. The archive is the kept preorder if and only if the walk loses nothing |
| `Project.Start` | crates/rustlet-compose/src/project.rs:178-185 | the stack starts as the positions asked for, all if none is named, unless a name is unknown |
| `Project.PushDependencies` | crates/rustlet-compose/src/project.rs:190-202 | a service pushes its dependencies in the project, or reports a required one that is missing |
| `Project.Close` | crates/rustlet-compose/src/project.rs:178-203 | the worklist collects exactly what chains of dependencies reach from the request |
| `Project.WorkStep` | crates/rustlet-compose/src/project.rs:186-203 | one turn of the worklist keeps what is marked needed, and what it needs marked or stacked |
| `Project.Place` | crates/rustlet-compose/src/project.rs:207-214 | each service placed is the first by file position whose dependencies are placed, until none is |
| `Project.GreedyIsOrdered` | crates/rustlet-compose/src/project.rs:207-214 | when everything wanted is placed, each is placed once and after all it depends on |
| `Project.GreedyIsLeast` | crates/rustlet-compose/src/project.rs:207-214 | of all orders that respect the dependencies, the one found is lexicographically least by file position |
| `Project.OrderedHasNoCycle` | crates/rustlet-compose/src/project.rs:207-231 | where an order exists no member is on a cycle |
| `Project.FollowWaits` | crates/rustlet-compose/src/project.rs:215-230 | following the first unplaced dependency ends, never leaves what is wanted, and yields a real cycle |
| `Project.FirstLeft` | crates/rustlet-compose/src/project.rs:215 | the cycle search starts at the first service left |
| `Project.DependencyOrder` | crates/rustlet-compose/src/project.rs:174-232 | an order is returned if and only if the names resolve, no required dependency is missing and no needed cycle exists; it is the exact closure, dependencies first, and the least such order; every error names something real; the edges are the dependencies of the file, required or not |
| `Project.EdgeIsDependency` | crates/rustlet-compose/src/project.rs:205-206 | a service depends on another if and only if one of its dependencies, required or not, has that service's name and no earlier service has it |
| `Project.ResolvableMeans` | crates/rustlet-compose/src/project.rs:183-202 | in the file's terms: every name asked for exists and, if strict, every required dependency of what is needed |
| `Project.RequestedMeans` | crates/rustlet-compose/src/project.rs:177-185 | everything is asked for if nothing is named, else the services named |
| `CanonicalJson.PrintUnambiguous` | crates/rustlet-compose/src/project.rs:301-329 | the text of a value determines the value and what follows it |
| `CanonicalJson.StringReadBack` | crates/rustlet-compose/src/project.rs:311-327 | a printed string is read back by the rules of section 7 of RFC 8259, whatever follows it |
| `CanonicalJson.QuotedUnambiguous` | crates/rustlet-compose/src/project.rs:311-327 | an escaped string determines the string and what follows it |
| `CanonicalJson.NormalizeSame` | crates/rustlet-compose/src/project.rs:301-329 | sorting keys at every depth makes two values equal if and only if they are the same up to key order |
| `CanonicalJson.CanonicalIdentifies` | crates/rustlet-compose/src/project.rs:301-329 | two values have the same canonical text if and only if they are the same up to key order, at every depth |
| `CanonicalJson.CanonicalReadBack` | crates/rustlet-compose/src/project.rs:299-329 | read by the grammar of RFC 8259, the canonical text is one value and nothing else, the given one up to key order, with every object's keys ascending at every depth |
| `CanonicalJson.ValueReadBack` | crates/rustlet-compose/src/project.rs:301-329 | printed values are read back by the grammar, whatever follows them |
| `ByteOrder.LessIsPrecedes` | crates/rustlet-compose/src/project.rs:305 | the sorting order: at the first place where two names differ the first ends or has the smaller element |
| `CanonicalJson.Append` | crates/rustlet-compose/src/project.rs:301-329 | the printer appends the canonical text and nothing else |
| `CanonicalJson.AppendItems` | crates/rustlet-compose/src/project.rs:317-326 | an array's loop writes its items in order, with commas between them |
| `CanonicalJson.AppendMembers` | crates/rustlet-compose/src/project.rs:303-316 | an object's loop writes its members in key order |
| `Expand.Lexer.ReadUntil` | crates/rustlet-build/src/expand.rs:119-141 | the cursor's loop yields the reading of the text, stands where that stopped, and restores the depth |
| `Expand.Lexer.ReadSingleQuoted` | crates/rustlet-build/src/expand.rs:144-152 | the text up to the next quote, taken literally, or a failure |
| `Expand.Lexer.ReadDoubleQuoted` | crates/rustlet-build/src/expand.rs:156-173 | the reading of double-quoted text, depth restored |
| `Expand.Lexer.ReadDollar` | crates/rustlet-build/src/expand.rs:176-194 | the reading of what follows a `$`, depth restored also on failure |
| `Expand.Lexer.ReadBraced` | crates/rustlet-build/src/expand.rs:197-241 | the reading of what follows `${`, its word read whether used or not |
| `Expand.Lexer.ReadModifier` | crates/rustlet-build/src/expand.rs:205-241 | the reading of an operator and its word, depth restored |
| `Expand.Lexer.ReadName` | crates/rustlet-build/src/expand.rs:244-250 | the longest run of name characters, and the cursor behind it |
| `Expand.UntilPrinted` | crates/rustlet-build/src/expand.rs:119-141 | at any depth that leaves room, the text of a template is read as its evaluation, and reading goes on behind it |
| `Expand.QuotedPrinted` | crates/rustlet-build/src/expand.rs:156-173 | the same inside double quotes |
| `Expand.BracedModified` | crates/rustlet-build/src/expand.rs:197-241 | `${NAME<op>word}` is read as the operator applied to the evaluated word |
| `Expand.ApplyIsTable` | crates/rustlet-build/src/expand.rs:220-240 | the six operators do what the table of section 2.6.2 of the POSIX Shell Command Language says for a set, an empty and an unset variable |
| `Expand.DeepUntil` | crates/rustlet-build/src/expand.rs:176-194 | a template nested deeper than 64 is refused, whatever the variables are |
| `Expand.ExpansionIsEvaluation` | crates/rustlet-build/src/expand.rs:44-65 | expanding the text of a template gives its eager value or its failure up to depth 64, and a failure beyond |
| `Expand.TextsAreTemplates` | crates/rustlet-build/src/expand.rs:119-241 | every text that is expanded is the text of a template within the limit; a text is that of one if and only if it is expanded with every variable set |
| `Expand.QuotedRoundTrip` | crates/rustlet-build/src/expand.rs:156-173 | any text, written in double quotes with `"`, `$` and the escape character escaped, expands to itself as one word, whatever the variables are |
| `Expand.QuotedEscapeText` | crates/rustlet-build/src/expand.rs:162-169 | in double quotes the escape character makes `"`, `$`, a newline and itself literal, and before any other character both stay |
| `Expand.EscapeText` | crates/rustlet-build/src/expand.rs:135-137 | outside quotes the escape character makes any character literal, and is dropped at the end |
| `Expand.SingleQuotesText` | crates/rustlet-build/src/expand.rs:144-152 | single quotes hold anything but themselves |
| `Expand.VariableText` | crates/rustlet-build/src/expand.rs:176-194 | `$NAME` takes the longest name of letters, digits and `_`, and its value splits outside quotes and not inside |
| `Expand.BracesText` | crates/rustlet-build/src/expand.rs:197-210 | `${NAME}` is the same, whatever follows |
| `Expand.OperatorsText` | crates/rustlet-build/src/expand.rs:208-240 | the operators by their characters: `-` defaults, `+` replaces, `?` requires, and a colon counts an empty value as unset |
| `Expand.VariableWords` | crates/rustlet-build/src/expand.rs:49-65 | a variable outside quotes becomes the words of its value, inside them one word |
| `Expand.Word` | crates/rustlet-build/src/expand.rs:44-46 | the characters of the reading, or its failure |
| `Expand.FieldsSplit` | crates/rustlet-build/src/expand.rs:49-65 | the fields are the texts between unquoted whitespace, none with a separator in it |
| `Expand.Words` | crates/rustlet-build/src/expand.rs:49-65 | the non-empty fields of the reading, or its failure |
| `Interpolate.FindClosingBrace` | crates/rustlet-compose/src/interpolate.rs:204-228 | the byte loop finds the balancing brace, or the first one when none balances |
| `Interpolate.ClosingBraceFound` | crates/rustlet-compose/src/interpolate.rs:204-228 | in the text of a template it finds the brace that closes the `${` |
| `Interpolate.SubstituteInto` | crates/rustlet-compose/src/interpolate.rs:111-145 | the loop appends the substitution of its text to what is there, with its unset names or its failure |
| `Interpolate.BracedInto` | crates/rustlet-compose/src/interpolate.rs:148-192 | the same for what stands between the braces |
| `Interpolate.FindNameLength` | crates/rustlet-compose/src/interpolate.rs:231-236 | the length of the variable name at the start of a text |
| `Interpolate.SubstitutePrinted` | crates/rustlet-compose/src/interpolate.rs:111-192 | the text of a brace-balanced template, with anything after it, is substituted as its lazy evaluation |
| `Interpolate.SubstitutionIsEvaluation` | crates/rustlet-compose/src/interpolate.rs:42-46 | substituting the text of a template gives its lazy value, its unset names or its failure |
| `Interpolate.EvalIsTable` | crates/rustlet-compose/src/interpolate.rs:148-192 | the operators do what the same table says, and a word is evaluated only where the table uses it or its message |
| `Interpolate.EvalNotesUses` | crates/rustlet-compose/src/interpolate.rs:148-192 | only the words that are used are evaluated for unset names |
| `Interpolate.NotedInOrder` | crates/rustlet-compose/src/interpolate.rs:238-242 | noting names keeps each once, in the order of first use |
| `Interpolate.UnsetIsUsed` | crates/rustlet-compose/src/interpolate.rs:238-242 | `unset` holds exactly the variables used without operator or value, once each, first use first |
| `Interpolate.PlainText` | crates/rustlet-compose/src/interpolate.rs:111-145 | `$$` is a dollar and other characters are themselves |
| `Interpolate.VariableText` | crates/rustlet-compose/src/interpolate.rs:111-167 | `$NAME` takes the longest name; it and `${NAME}` are the value, or nothing and the name noted |
| `Interpolate.OperatorsText` | crates/rustlet-compose/src/interpolate.rs:168-190 | the operators by their characters, none of which notes its name |
| `Interpolate.FirstBraceCloses` | crates/rustlet-compose/src/interpolate.rs:200-228 | where the braces do not balance, the first `}` closes |
| `Dotenv.Parser.ReadQuoted` | crates/rustlet-compose/src/interpolate.rs:431-463 | the cursor's loop yields the unescaped text up to the closing quote and stands behind it, or fails |
| `Dotenv.Parser.ReadKey` | crates/rustlet-compose/src/interpolate.rs:402-409 | the longest run of key characters, and the cursor behind it |
| `Dotenv.Parser.ReadEndOfValue` | crates/rustlet-compose/src/interpolate.rs:498-507 | only blanks or a comment may follow a quoted value on its line |
| `Dotenv.Parser.ReadValue` | crates/rustlet-compose/src/interpolate.rs:330-362 | the value by its quoting, substituted unless single-quoted, and the cursor on the next line |
| `Dotenv.OctalEscape` | crates/rustlet-compose/src/interpolate.rs:465-495 | every character up to 255 can be written as `\0` and three octal digits |
| `Dotenv.EscapePass` | crates/rustlet-compose/src/interpolate.rs:431-495 | reading an escaped value up to its quote gives the value with its dollars doubled |
| `Dotenv.SubstitutionPass` | crates/rustlet-compose/src/interpolate.rs:111-145 | substituting that gives the value back, whatever the variables are |
| `Dotenv.LineRoundTrip` | crates/rustlet-compose/src/interpolate.rs:331-349 | a written line is read as its entry and defines its key for the lines after it |
| `Dotenv.FileRoundTrip` | crates/rustlet-compose/src/interpolate.rs:272-364 | any keys and any values, written in double quotes, are read back exactly, for any environment |
| `Dotenv.VariableLine` | crates/rustlet-compose/src/interpolate.rs:331 | a variable is the environment's, else an earlier line's, else empty |
| `Dotenv.SingleQuotedLine` | crates/rustlet-compose/src/interpolate.rs:338-343 | in single quotes nothing is substituted |
| `Dotenv.UnquotedLine` | crates/rustlet-compose/src/interpolate.rs:350-358 | an unquoted value ends before a comment, blanks around it dropped |
| `Dotenv.BareKey` | crates/rustlet-compose/src/interpolate.rs:311-324 | a key alone is an entry without a value, and stands for the environment's on later lines |
| `Dotenv.PassedOver` | crates/rustlet-compose/src/interpolate.rs:283-299 | blank lines and comments are passed over |
| `Dotenv.ExportedLine` | crates/rustlet-compose/src/interpolate.rs:302-306 | `export` before a key changes nothing |
| `Dotenv.MarkedFile` | crates/rustlet-compose/src/interpolate.rs:277 | a byte order mark before the file changes nothing |
| `Dotenv.ParseDotenv` | crates/rustlet-compose/src/interpolate.rs:272-364 | the loop yields the entries of the text, or the first error |
| `Duration.RoundTrip` | crates/rustlet-build/src/config.rs:313-399 | parsing what is printed gives the duration back if it has fewer than 2^64 nanoseconds, and is refused otherwise, for every value a `Duration` has |
| `Duration.FormatClock` | crates/rustlet-build/src/config.rs:329-338 | from a second on: hours if there are any, minutes if there are any or hours, and seconds with their fraction |
| `Duration.FormatMillis` | crates/rustlet-build/src/config.rs:318-328 | from a millisecond on: a number of milliseconds |
| `Duration.FormatMicros` | crates/rustlet-build/src/config.rs:318-328 | from a microsecond on: a number of microseconds |
| `Duration.FormatNanos` | crates/rustlet-build/src/config.rs:315-328 | below: whole nanoseconds, and `0s` for nothing |
| `Duration.DecimalShape` | crates/rustlet-build/src/config.rs:342-351 | whole numbers have no zeros in front |
| `Duration.FractionShape` | crates/rustlet-build/src/config.rs:342-351 | fractions have a digit, no zeros at the end, and are worth the remainder |
| `Duration.Signs` | crates/rustlet-build/src/config.rs:359-365 | a `+` in front changes nothing, a `-` is refused, `0` needs no unit |
| `Duration.BlanksAround` | crates/rustlet-build/src/config.rs:359 | blanks around the text do not matter |
| `Duration.CutsOfShown` | crates/rustlet-build/src/config.rs:313-399 | printed components are cut apart where they were joined |
| `Duration.NumberRead` | crates/rustlet-build/src/config.rs:342-394 | a whole number and a fraction printed without trailing zeros are read back exactly |
| `Duration.FractionShortfall` | crates/rustlet-build/src/config.rs:388-394 | digit by digit, a fraction of any length is worth at most its exact value and less than 10 ns less |
| `Duration.Shortfall` | crates/rustlet-build/src/config.rs:357-399 | for every accepted text the total is at most the exact value of its components and short of it by less than 10 ns for each |
| `Duration.AddFraction` | crates/rustlet-build/src/config.rs:386-394 | the digit loop adds the fraction's nanoseconds, and fails on a non-digit or when 128 bits are exceeded |
| `Duration.ReadComponent` | crates/rustlet-build/src/config.rs:373-394 | one number and unit are valued, or refused |
| `Duration.AddComponents` | crates/rustlet-build/src/config.rs:366-397 | the loop adds up the components of the text, or fails where one is malformed or too large |
| `Duration.ParseDuration` | crates/rustlet-build/src/config.rs:357-399 | the trimmed text, a `+` dropped, is valued as its components, and refused from 2^64 ns on |
| `Body.StepKeeps` | crates/rustlet-client/src/body.rs:124-199 | every step of writer, channel and reader keeps the invariant: bytes delivered, queued and held are the bytes accepted, in order |
| `Body.RunValid` | crates/rustlet-client/src/body.rs:124-199 | every state of every run satisfies it |
| `Body.BodyIsWholeOrFailed` | crates/rustlet-client/src/body.rs:119-138 | in every run a body that ends without error delivered all accepted bytes of a finished writer; any other delivered a prefix and one last error, which tells an aborted writer from a dropped one |
| `Body.ChunksAreBounded` | crates/rustlet-client/src/body.rs:27-30 | at most nine pieces are ever undelivered, and every chunk has 1 to 65536 bytes |
| `Body.WriteTakes` | crates/rustlet-client/src/body.rs:184-194 | `write` takes a prefix of its data, never nothing of something, and all of it unless it filled the buffer |
| `Body.NeverStalls` | crates/rustlet-client/src/body.rs:124-176 | whenever a call or the body is under way some step can happen |
| `Body.ReadToTheEnd` | crates/rustlet-client/src/body.rs:124-167 | once the writer is gone a reader that polls on reaches the end: all bytes if it was finished, else the error that fits |
| `Body.Pipe.Write` | crates/rustlet-client/src/body.rs:184-194 | the step takes as much as the buffer has room for and returns that count, something of anything, all of it unless a full chunk is to be sent; the object stays on a run of the machine |
| `Body.Pipe.Flush` | crates/rustlet-client/src/body.rs:169-198 | the step sends the buffer, and has nothing to wait for exactly if that is empty |
| `Body.Pipe.Send` | crates/rustlet-client/src/body.rs:169-176 | a blocking send waits exactly while all eight slots are taken, fails with `BrokenPipe` exactly if nobody reads any more, and lets `finish` go on to the end piece |
| `Body.Pipe.Finish` | crates/rustlet-client/src/body.rs:156-176 | the step sends the rest of the buffer, if any, and then the end |
| `Body.Pipe.Abort` | crates/rustlet-client/src/body.rs:163-167 | the call sends the failure and nothing of the buffer |
| `Body.Pipe.Poll` | crates/rustlet-client/src/body.rs:124-138 | a poll yields the next chunk or error, or waits exactly if there is nothing to receive and the writer is there; when the body ends, all accepted bytes of a finished writer have been yielded, or a prefix and one error |
| `Ndjson.SplitJoins` | crates/rustlet-client/src/ndjson.rs:180-200 | the lines and the tail of a text hold no newline and join to the text |
| `Ndjson.JoinSplits` | crates/rustlet-client/src/ndjson.rs:180-200 | newline-free lines and a tail, joined, are split into themselves |
| `Ndjson.LineBuffer.Push` | crates/rustlet-client/src/ndjson.rs:169-176 | the pending bytes grow by the frame, consumed ones are dropped, and no byte is examined |
| `Ndjson.LineBuffer.FindNewline` | crates/rustlet-client/src/ndjson.rs:181 | the search starts behind everything examined before, and counts each byte once |
| `Ndjson.LineBuffer.NextLine` | crates/rustlet-client/src/ndjson.rs:180-200 | the line up to the first newline is handed out and the rest is kept; the bytes examined are exactly those before `scanned`, once each |
| `Ndjson.ItemsOverlong` | crates/rustlet-client/src/ndjson.rs:104-125 | a line longer than the limit is the same last item whether its newline has come or not, and however the body ends |
| `Ndjson.LineTaken` | crates/rustlet-client/src/ndjson.rs:104-117 | taking a line off the buffer and judging it takes it off the items of the whole body |
| `Ndjson.NoLine` | crates/rustlet-client/src/ndjson.rs:118-138 | without a line in the buffer, what the end, the limit or a broken connection yields is what the whole body yields |
| `Ndjson.ErrorIsLast` | crates/rustlet-client/src/ndjson.rs:41-43 | an error is the last item |
| `Ndjson.ItemsByLines` | crates/rustlet-client/src/ndjson.rs:104-117 | the items are the lines with something on them, in order, up to the first that is too long or does not decode |
| `Ndjson.Stream.Next` | crates/rustlet-client/src/ndjson.rs:99-140 | each call takes the first of the items of the bytes still to come, an error ends the stream, and the buffer never exceeds the longest line and one frame |
| `Ndjson.Collect` | crates/rustlet-client/src/ndjson.rs:61-69 | the items of a stream are a function of its bytes and its ending alone, for every way of framing them |
| `NaturalOrder.NaturalCompare` | crates/rustlet-cli/src/format.rs:169-200 | the loop compares the token sequences lexicographically, numbers first, by value and then by leading zeros |
| `NaturalOrder.CompareNumbers` | crates/rustlet-cli/src/format.rs:181-195 | lengths, digits and zeros of two digit runs decide as their values and zeros do |
| `NaturalOrder.SignificantCompare` | crates/rustlet-cli/src/format.rs:182-190 | digits without leading zeros compare by length and then digit by digit exactly as their values, and equal values are equal digits |
| `NaturalOrder.TokensInjective` | crates/rustlet-cli/src/format.rs:169-200 | no two names have the same tokens |
| `NaturalOrder.NaturalOrderIsTotal` | crates/rustlet-cli/src/format.rs:165-200 | a total order: antisymmetric, transitive, and equal only on identical names |
| `NaturalOrder.NumbersByValue` | crates/rustlet-cli/src/format.rs:165-197 | digit runs order by the number they write, equal numbers by their length, and equal runs leave it to what follows |
| `NaturalOrder.BytesInTurn` | crates/rustlet-cli/src/format.rs:175-199 | nothing comes before something, a digit before other bytes, smaller bytes first, equal ones leave it to what follows |
| `Path.CleanPath` | crates/rustlet-build/src/path.rs:6-31 | the loop over the components keeps the stack that the whole walk ends with |
| `Path.CleanIsNormal` | crates/rustlet-build/src/path.rs:4-31 | cleaned text is rooted as its path was, reads back as the same normal components, and ends in no `/` but the root's |
| `Path.CleanIdempotent` | crates/rustlet-build/src/path.rs:6-31 | cleaning twice is cleaning once |
| `Path.CleanThenJoin` | crates/rustlet-build/src/path.rs:6-31 | `clean(p/q)` is `clean(clean(p)/q)` if and only if `p` is not empty |
| `Path.ComponentLaws` | crates/rustlet-build/src/path.rs:10-22 | an empty or `.` component changes nothing, `..` undoes a name, and stays at the root |
| `Path.WorkdirIsAbsolute` | crates/rustlet-build/src/config.rs:80-83 | after any run of `WORKDIR`s, from any base, the directory is absolute and normal |
| `Path.WorkdirComposes` | crates/rustlet-build/src/config.rs:210-212 | two `WORKDIR`s in turn are one along the joined path |
| `Path.ImageConfig.ApplyWorkdir` | crates/rustlet-build/src/config.rs:80-83 | the config's directory becomes the joined and cleaned one, absolute and normal |
| `Plan.ParseStages` | crates/rustlet-build/src/parser.rs:216-260 | stages are numbered by position with distinct names and hold every line after the leading `ARG`s; a file is refused if and only if it repeats a name, puts another instruction first, or has no `FROM` |
| `Plan.NamedOnce` | crates/rustlet-build/src/plan.rs:192-195 | a name finds a stage if and only if the stage has it and comes before the limit |
| `Plan.TargetMeans` | crates/rustlet-build/src/plan.rs:197-214 | the target is the stage of that name, else of that number when no stage has the name, and the last stage when none is given |
| `Plan.FromMeans` | crates/rustlet-build/src/plan.rs:227-243 | `--from` is resolved to a stage if and only if that is earlier and has the index or the name given; the name of a stage that is not earlier is refused |
| `Plan.BaseMeans` | crates/rustlet-build/src/plan.rs:97-103 | a base is a stage if and only if an earlier stage has its name, in any case, and it is not `scratch` |
| `Plan.EdgeMeans` | crates/rustlet-build/src/plan.rs:114-128 | a stage is built from another if and only if that is its base or one of its `COPY --from`s is resolved to it |
| `Plan.StageGraph` | crates/rustlet-build/src/plan.rs:114-128 | every edge from a stage to what it is built from goes to a smaller index |
| `Plan.ResolveBases` | crates/rustlet-build/src/plan.rs:84-104 | every stage's base is resolved, or some stage's is refused |
| `Plan.CopySources` | crates/rustlet-build/src/plan.rs:117-128 | the stages a stage copies from are found, and it fails exactly if a `--from` has a `$` or names no earlier stage |
| `Plan.MarkNeeded` | crates/rustlet-build/src/plan.rs:108-129 | the worklist ends with exactly the stages the target needs marked, or at a needed stage with a bad copy |
| `Plan.NeededIsClosed` | crates/rustlet-build/src/plan.rs:107-129 | the needed stages hold the target and everything any of them is built from |
| `Plan.NeededIsLeast` | crates/rustlet-build/src/plan.rs:107-129 | every set that holds the target and is closed holds the needed stages |
| `Plan.FileOrderIsOrdered` | crates/rustlet-build/src/plan.rs:130 | listed by index, each needed stage comes once and after all it is built from |
| `Plan.PlanBuild` | crates/rustlet-build/src/plan.rs:79-154 | there is a plan if and only if every base, the target and every copy of a needed stage are resolved; it is exactly the needed stages, ascending, each after all it is built from; otherwise the error names something that is really bad |
| `Relay.DetachKeys.Feed` | crates/rustlet-cli/src/relay.rs:307-325 | what is forwarded and held back is the input so far until the keys come; it detaches exactly when they first complete, having forwarded exactly what came before them |
| `Relay.DetachKeys.FeedByte` | crates/rustlet-cli/src/relay.rs:309-322 | a byte completes the keys, starts them, or lets go of what was held |
| `Relay.Pump` | crates/rustlet-cli/src/relay.rs:205-225 | over any split of the input into reads, with or without detach keys, what is sent and whether it detaches depend on the bytes alone; no message is empty, and the end of the input is sent last exactly if it does not detach |

## Left out

- Ignore.Compile: it is asked of cleaned texts, which end in no `/` (`Path.CleanIsNormal`); a glob's tail from its first `[` or `\` on is given to an abstract expression engine; character classes and escapes have no semantics of their own here. `IgnoreRules::parse` (comments, blanks, `!`, cleaning each line) is not modelled.
- Ignore.Excludes: patterns are matched by the meaning of their expressions; the matching algorithm of the expression engine is not modelled.
- Context.Pack: the file system is a finite readable tree; metadata, tar headers, unreadable directories, files that change while they are read and failing writes are not modelled, and the set of paths packed in any case (`always`) is a parameter.
- Project.DependencyOrder: dependencies are positions by service name; error wording is a tag with the services concerned.
- CanonicalJson.CanonicalIdentifies: numbers are the lexemes serde writes, and what `config_hash` puts into the value, SHA-256 and serde are not modelled.
- Expand.TextsAreTemplates: the escape character is one of the two a Containerfile can choose; whitespace is a parameter; messages are tags.
- Interpolate.SubstitutionIsEvaluation: the walk over YAML values and error paths is not modelled; templates whose word has unbalanced braces are only covered by `Interpolate.SubstituteInto`.
- Dotenv.ParseDotenv: line numbers in messages are not modelled; the Unicode classes are parameters, of which the round trip asks only that key characters are not blanks, `=`, `#`, a newline or the byte order mark.
- Duration.ParseDuration: messages are not modelled.
- Body.StepKeeps: the pipe's interleavings are modelled on values, one step for each stretch between blocking sends; `from_reader` and the HTTP connection that polls the body are not modelled.
- Ndjson.Stream.Next: decoding is a predicate on lines, an item is known by its line; uploads and the wording of errors are not modelled.
- Plan.PlanBuild: the expansion of `FROM` lines is a parameter; build args, unused args and step counts are not modelled, nor are instructions other than `COPY --from` and `ARG`.
- Relay.Pump: a session that is gone while input is sent, terminal modes, signals, window sizes and the session itself are not modelled.
- The daemon, the CLI's commands and tables, floating-point formatting, image storage and networking are not modelled.
