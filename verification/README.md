# Verified models of the `common/` library

Dafny models of the stateful and the compiling parts of the repository's `common/` directory, with proofs of what they
are for. Code that changes things step by step is modelled by classes, methods and loops over the same fields, and each
method is proved against a function or a relation on values; the theorems are about those.

`dafny verify dfyconfig.toml` checks the whole project.

## What is modelled

**Grammar compiler.** `Gbnf` gives grammar expressions the language the grammar guide describes; `Decimal` is about
decimal numerals. `GrammarText` is how literals and character classes are written by the converter and read by the
grammar parser, and `JsonText` how JSON spells a name. `IntRange` and `IntRangeText` model `_build_min_max_int`: the
tree it stands for, its language, and the text it writes. `GrammarReader` is the grammar parser for whole rule bodies,
and `IntRangeRead` reads the range texts with it. `Repetition`, `NotStrings` and `ObjectRule` model `build_repetition`,
`_not_strings` and the object rule; `KeyFaults` says for which names the second keeps its promise on every key.
`Schemas` are the schemas, `BuiltRules` says when a table holds the rules a schema asks for, and `References` when
references and built-in rules can be told apart from everything else. `SchemaConverter` is the converter itself, with
its rule table, its references being resolved and its recursion; `SchemaMeaning` says what a schema stands for,
references included. `GrammarMeaning` gives the built-in rules their meaning from their own table and proves that what
can be derived from the finished grammar is exactly what the schema stands for. `GrammarCases` says what that is keyword
by keyword, in the schema's own fields, with lists and objects spelled out by `GrammarTexts`; `GrammarMembers` derives
single objects. `NameFaults` shows what goes wrong where names meet, and how far the condition on names is exact.

**Partial regular expressions.** `RegexPartial` is the rewriting of patterns as trees and its meaning as languages;
`RegexText` is the single pass of the program over the lexemes of a pattern, proved to write that rewriting.
`RegexReader` reads pattern texts as a regular expression engine does, and `RegexLexer` cuts them as the program does:
together they go from the text of a pattern to the text that is searched with.

**Speculative decoding.** `Sampling` models the sampler, its ring buffer and the loop that verifies a draft against
plain one-token decoding. `DraftContext` models the draft model's memory and its mirror. `NgramMap`, `NgramMod` and
`NgramCache` are the three n-gram indexes; `NgramSpec` and `NgramRuns` say what the first computes and what its counts
and drafts mean, `NgramFavourite` when it drafts what it has seen most often, and `NgramDrafts` what it keeps, finds and
drafts at all. `Horner` is about the hashes. `LongestRun` is the common-run length.

**JSON healing.** `Json` is the grammar of RFC 8259 (sections 2, 4 and 5) over tokens and a parser for it; `JsonHealing`
models the event handler that follows the parser, and the completion of a truncated text.

**Others.** `LogQueue` is the log's protocol of producers, one worker and a controller, as interleaved steps over a
growing ring. `ChatDiff` models streamed message differences and tool-call ids. `Base64` models encoding and in-place
decoding (RFC 4648, sections 4 and 5). `Common` holds shared types.

## What the code does that its comments do not say

Each entry names the lemma with the input and the one with the exact condition.

- Integer bounds. A minimum alone is exact only if no digit between its first and last one is 0 or 1: the tail loses
  leading zeros and the digits 0 and 1 are taken for different lengths (`IntRange.LowerExactIff`, at 100 and 110
  `IntRange.LowerCounterexamples`). A negative maximum alone has the same fault and admits leading zeros
  (`IntRange.NegativeUpperExactIff`). A minimum of -INT_MAX lets sixteen nines through (`IntRange.ExtremeMinimum`).
  `IntRange.BoundedExactIff` is the condition for all pairs of bounds. A range that holds both signs also accepts `-0`.
- Literals. Only CR, LF and quotes are escaped, so a constant or key comes back from the grammar parser as it was if and
  only if its JSON text holds no backslash (`GrammarText.LiteralSurvivesIff`, `GrammarText.KeySurvivesIff`); a
  backslash is lost, and an escaped quote ends the literal (`GrammarText.BackslashesAreLost`, `GrammarText.QuoteInKey`).
- Classes. Characters of names are written into classes as they are; a `-` makes a range, `^`, `]` and backslash mean
  something else. `NotStrings.AsMeantIff` says exactly for which names the classes are read as they are meant, and for
  those names alone the rule is right about every key (`KeyFaults.KeysExactIff`); for the names `a-b` and `ab` the key
  `aX` is rejected (`NotStrings.DashMakesRange`).
- `_not_strings` promises any string that is none of the listed ones; it also rejects every proper beginning of a listed
  name, and with only the empty name listed it accepts the empty key alone (`NotStrings.PromiseKeptIff`,
  `NotStrings.EmptyKeyExact`).
- A maximum of zero lets the empty list through whatever the minimum, and with a separator a maximum of one lets one
  item through whatever the minimum (`Repetition.BuildExactIff`).
- A property that is itself called `*` may be repeated (`ObjectRule.StarPropertyRepeats`), which does no harm if and only
  if additional members are allowed and no other key follows it (`ObjectRule.PicksMeaningIff`).
- References share the names of rules. A reference to `#/$defs/node` takes the rule of a property `node` that was
  written first, without an error (`NameFaults.ChildTakesNode`). A recursive reference whose last component is no rule
  name, like `my_node`, or is that of a built-in rule, like `object`, leaves references to a rule that does not exist
  (`NameFaults.MyNodeDangles`, `NameFaults.ObjectDangles`). `SchemaConverter.Convert` says when the table is closed in
  terms of the references its run met while resolving them. What a caller can check beforehand is
  `References.NamedApart`; it is sufficient and not necessary, and `SchemaConverter.InvalidNameDangles` is a part of the
  converse.
- Built-in rules share them too. Whether a name is reserved is asked before other characters become dashes, and a
  built-in rule is not written where its name is taken already. So a property `decimal_part` that is the constant null,
  in front of a property of type number, makes that number `1.null`, without an error (`NameFaults.DecimalPartTaken`).
  `References.BuiltinsApart` is the condition on schema and tables under which the built-in rules stay what they are;
  for objects of constants, bounded integers and plain built-in types it says just that no name turns into a built-in one
  (`NameFaults.FlatApartIff`), and where the name of a first such property does, its rule stands in place of the
  built-in one (`NameFaults.FirstPropertyTakes`).
- The regular expression rewriting lets every group be left early and goes on with what follows
  (`RegexPartial.EarlyAccepted`). Where no match goes on like that, texts that begin no match are reported
  (`RegexPartial.EarlyBreaks`): for a group of words in front of a letter, where no word goes on with that letter
  (`RegexPartial.WordsLeftEarly`, for `(bc)d` `RegexPartial.MiddleGroupInexact`). Where every group may be left early or
  ends its sequence, exactly the beginnings of matches are (`RegexPartial.PartialExact`).
- A discarded draft is handed out again when only a part of the window matched: it continues the context if and only if
  the whole window occurs in the draft context (`DraftContext.HandedBackContinuesIff`,
  `DraftContext.HandedBackAfterShortMatch`).
- Pausing the log does not grow the ring. With one slot short of full the ring then looks empty: the pause never returns
  and the pending messages are never printed (`LogQueue.PauseReturnsIff`, `LogQueue.LatePauseLoses`,
  `LogQueue.LatePauseHappens`).
- Where a text ends in `true` or `false` without a blank, healing takes the last letter for the end of a number and
  replaces the value (`JsonHealing.HealedKeepsAllIff`, for `[true` `JsonHealing.TrueIsCut`).
- Four-value n-gram maps keep values the history has lost when it comes back with a length inside the m tokens behind the
  last start (`NgramSpec.MayBeginIff`; `NgramRuns.ShortenedRun` and `NgramMap.KeepTooMuch` are a run of calls that ends
  so). They count the last match again at every draft, so a count is the number of occurrences only at first
  (`NgramRuns.FirstCountTrue`, `NgramRuns.RecountIff`). And what they draft is the m-gram behind the match, not the most
  frequent one (`NgramRuns.DraftsAnotherValue`). It is that one if and only if the m-gram behind the match has one of the
  four places and none of the others was seen more often (`NgramFavourite.FavouriteDraftedIff`, for the first draft of a
  key `NgramFavourite.FirstDraftIff`).
- All sequences share one hashed n-gram table, and a reset by one forgets the n-grams of the others, which do not notice
  (`NgramMod.TwoSequences`, `NgramMod.AfterResetIff`; `NgramMod.Drafter` keeps the sequences that are not affected). The
  table counts a slot again when the token -1 was put into it (`NgramMod.UsedIsFilledIff`).
- A cache file that breaks off inside an n-gram is read as if it ended before it (`NgramCache.CutFile`).

## Model

| member | source | states |
|---|---|---|
| Gbnf.RepeatedClass | grammars/README.md:60-68 | a repeated character class accepts exactly the words over its characters whose length the operator allows |
| Gbnf.SeqOfClass | grammars/README.md:58-68 | a sequence headed by one character reads that character and leaves the rest to the other part |
| IntRange.UniformExact | common/json-schema-to-grammar.cpp:72-126 | on two digit strings of one length, in order, the range grammar accepts exactly the digit strings between them |
| IntRange.ByLengthExact | common/json-schema-to-grammar.cpp:143-153 | the loop over digit counts accepts exactly the canonical numerals between its bounds |
| IntRange.NonnegativeExact | common/json-schema-to-grammar.cpp:143-154 | for bounds from zero on the accepted texts are the canonical numerals of the numbers in the interval |
| IntRange.IntervalTexts | common/json-schema-to-grammar.cpp:128-154 | the decimal texts of an interval split into a part without sign and the negated part behind a minus sign |
| IntRange.TwoSidedExact | common/json-schema-to-grammar.cpp:128-155 | for every min <= max strictly inside the sentinels the grammar accepts exactly the decimals of the interval, and `-0` when both signs are in it |
| IntRange.TailExact | common/json-schema-to-grammar.cpp:159-206 | below the top level the minimum grammar accepts exactly the digit strings that are not below the bound, when no interior digit is 0 or 1 |
| IntRange.LowerPeel | common/json-schema-to-grammar.cpp:195-198 | behind an agreed prefix the grammar goes on with the bound's tail, leading zeros dropped |
| IntRange.LowerExact | common/json-schema-to-grammar.cpp:159-206 | such a minimum alone accepts exactly the numerals from it on, up to the digit limit |
| IntRange.LowerInexact | common/json-schema-to-grammar.cpp:184-204 | for any other minimum a text is named on which grammar and order disagree |
| IntRange.LowerExactIff | common/json-schema-to-grammar.cpp:159-207 | a minimum alone is exact if and only if no digit strictly inside it is 0 or 1 |
| IntRange.LowerCounterexamples | common/json-schema-to-grammar.cpp:184-204 | a minimum of 100 accepts 10; a minimum of 110 rejects 1000 |
| IntRange.NegativeUpperExactIff | common/json-schema-to-grammar.cpp:217-221 | a negative maximum alone is exact if and only if its numeral has two digits or more, starts with 1 and has no 0 or 1 inside |
| IntRange.NegativeLowerExact | common/json-schema-to-grammar.cpp:165-170 | a negative minimum alone accepts the numerals of at most sixteen digits and the negated ones down to it, with `-0` |
| IntRange.NonnegativeUpperExact | common/json-schema-to-grammar.cpp:209-216 | a maximum from zero on alone accepts the numerals up to it and the negated ones of at most sixteen digits |
| IntRange.ExtremeMinimum | common/json-schema-to-grammar.cpp:128-155 | a minimum of -INT_MAX is negated into no maximum, and a number below it is accepted |
| IntRange.BoundedExactIff | common/json-schema-to-grammar.cpp:44-226 | for every pair of bounds in order: the grammar accepts exactly the decimals inside them, up to `-0` and the digit limit, if and only if the bounds are of the kinds listed |
| IntRangeText.EmitUniformRange | common/json-schema-to-grammar.cpp:73-91 | the text written is that of the range tree, whose language is the theorem above |
| IntRangeText.EmitBranch | common/json-schema-to-grammar.cpp:81-125 | the branch behind the common prefix is written as its tree |
| IntRangeText.EmitNonnegative | common/json-schema-to-grammar.cpp:143-154 | the loop over digit counts writes the text of its tree |
| IntRangeText.EmitLower | common/json-schema-to-grammar.cpp:157-207 | the minimum alone is written as its tree; what that text is read as is `IntRangeRead.RangeText` |
| IntRangeText.EmitBounded | common/json-schema-to-grammar.cpp:44-226 | for bounds in order the whole function writes the text of its tree, and throws exactly where the tree is missing; what that text is read as is `IntRangeRead.RangeText` |
| IntRangeText.UniformNests | common/json-schema-to-grammar.cpp:72-126 | the range text needs no further brackets to be read as its tree |
| IntRangeText.BoundedNests | common/json-schema-to-grammar.cpp:44-226 | the same for the whole text, for bounds in order |
| GrammarReader.ShowIsRead | src/llama-grammar.cpp:323-530 | the grammar parser reads the text of an expression as one with its language: bars loosest, then sequences, repetitions on the symbol before them, groups, names, literals and classes |
| IntRangeRead.BoundedReads | common/json-schema-to-grammar.cpp:44-226 | the text of the range tree is one that the grammar parser reads back |
| IntRangeRead.RangeText | common/json-schema-to-grammar.cpp:44-226 | the text returned for bounds in order is read by the grammar parser, and as read accepts exactly the decimals inside the bounds if and only if the bounds are of the kinds listed |
| Repetition.TailExact | common/json-schema-to-grammar.cpp:37 | the items behind the first, each with its separator, come in exactly the remaining numbers |
| Repetition.BuildExact | common/json-schema-to-grammar.cpp:15-42 | the rule accepts exactly the lists whose length lies between the bounds, with separators only between items |
| Repetition.BuildExactIff | common/json-schema-to-grammar.cpp:15-42 | it does so if and only if neither a zero maximum nor, with a separator, a maximum of one meets a greater minimum |
| GrammarText.LiteralSurvivesIff | src/llama-grammar.cpp:402-413 | what `format_literal` writes for a text is read back as that text if and only if it holds no backslash and no zero character |
| GrammarText.LiteralAcceptsIff | common/json-schema-to-grammar.cpp:300-304 | the grammar symbol so written accepts the text under the same condition |
| GrammarText.BackslashesAreLost | common/json-schema-to-grammar.cpp:271-304 | a constant with an escaped backslash is read with one backslash fewer, one with an escaped quote ends there |
| GrammarText.KeySurvivesIff | common/json-schema-to-grammar.cpp:620-639 | the JSON text of a property name comes back if and only if the name needs no escape |
| GrammarText.QuoteInKey | common/json-schema-to-grammar.cpp:620-639 | for the name `a"b` it does not |
| JsonText.DumpReads | common/json-schema-to-grammar.cpp:620-639 | the JSON text of any property name is a JSON string that spells the name |
| JsonText.CharRuleIs | common/json-schema-to-grammar.cpp:245 | the built-in rule for a character accepts exactly the JSON spellings of one character, but for a delete character and the escaped slash |
| GrammarText.OneCharIff | src/llama-grammar.cpp:414-442 | the class written for one character is read as that character if and only if it is none of `^`, `]`, backslash and zero |
| GrammarText.NoneButIff | src/llama-grammar.cpp:414-442 | the class of all but a quote and some characters is read as it is meant if and only if every dash comes last or lies between its neighbours |
| GrammarText.DashRejects | src/llama-grammar.cpp:433-440 | nothing inside the range that a dash makes is let through |
| GrammarText.ListedRejected | src/llama-grammar.cpp:414-442 | the class lets only single characters through, and of the listed ones none but a dash |
| GrammarText.BracketBlocks | src/llama-grammar.cpp:414-442 | with a bracket among the characters it lets nothing through |
| NotStrings.InsertContains | common/json-schema-to-grammar.cpp:550-556 | inserting a string adds that string to the trie's words and nothing else |
| NotStrings.BuildContains | common/json-schema-to-grammar.cpp:559-562 | the trie holds exactly the listed strings |
| NotStrings.CharRuleMeansOne | common/json-schema-to-grammar.cpp:245 | on ordinary text the character rule accepts the single characters |
| NotStrings.AsMeantIff | common/json-schema-to-grammar.cpp:575-589 | the classes written for a trie of ASCII names are read as they are meant if and only if every character stands for itself there and every dash fits |
| NotStrings.PlainNamesPlain | common/json-schema-to-grammar.cpp:575-589 | names without dash, `^`, `]` and backslash are of that kind |
| NotStrings.WalkExact | common/json-schema-to-grammar.cpp:567-592 | for such names, what is written for a node accepts exactly the non-empty ordinary texts that do not reach a node below it |
| NotStrings.KeyBodyExact | common/json-schema-to-grammar.cpp:566-600 | for such names a non-empty ordinary key is accepted exactly when it is no listed name and no beginning of one |
| KeyFaults.KeysExactIff | common/json-schema-to-grammar.cpp:534-601 | for ordinary ASCII names, all non-empty ordinary keys are accepted exactly when they are no listed name and no beginning of one if and only if the classes are read as they are meant |
| KeyFaults.WalkBreaks | common/json-schema-to-grammar.cpp:567-592 | for any other trie there is a key that is accepted although it leads to a node, or rejected although it does not |
| NotStrings.DashMakesRange | common/json-schema-to-grammar.cpp:575-589 | for the names `a-b` and `ab` the key `aX` is rejected although it is neither |
| NotStrings.EmptyKeyExact | common/json-schema-to-grammar.cpp:595-598 | the empty key is accepted unless it is listed, and also when nothing else is listed |
| NotStrings.ListedNamesRejected | common/json-schema-to-grammar.cpp:534-601 | for such names no listed name is accepted, except the empty one listed alone |
| NotStrings.PromiseKeptIff | common/json-schema-to-grammar.cpp:534-541 | for such names the documented promise holds for a key if and only if it is no proper beginning of a listed name |
| NotStrings.RuleIsQuotedKey | common/json-schema-to-grammar.cpp:566-600 | the rule is such a key between quotes with optional space behind it |
| ObjectRule.ReadingExists | grammars/README.md:60-68 | every rule table has a reading, also one with circular references; rules that are missing accept nothing in it |
| ObjectRule.OptionalRefsExact | common/json-schema-to-grammar.cpp:668-688 | the rest rules accept exactly the in-order selections from their keys, each member behind a comma |
| ObjectRule.StartRefsExact | common/json-schema-to-grammar.cpp:668-695 | an alternative accepts its first key's member and any selection of the later ones |
| ObjectRule.StartsExact | common/json-schema-to-grammar.cpp:690-695 | all alternatives together accept exactly the non-empty selections |
| ObjectRule.RequiredExact | common/json-schema-to-grammar.cpp:654-660 | required members come all, in order, with commas between them |
| ObjectRule.InsideExact | common/json-schema-to-grammar.cpp:654-700 | between the braces: required members, then a selection, commas only between members |
| ObjectRule.ObjectExact | common/json-schema-to-grammar.cpp:614-705 | the object rule accepts exactly braces around those member lists |
| ObjectRule.PicksMeaningIff | common/json-schema-to-grammar.cpp:640-652 | the lists taken are exactly the in-order subsets of the optional keys and then any number of additional members, if and only if no key is `*` or, where additional members are allowed, no other key follows one |
| ObjectRule.PicksMeaning | common/json-schema-to-grammar.cpp:640-652 | under that condition a selection is such a list |
| ObjectRule.StarPropertyRepeats | common/json-schema-to-grammar.cpp:674-680 | an object rule whose only optional property is called `*` accepts an object with that member twice |
| ObjectRule.ObjectStays | common/json-schema-to-grammar.cpp:317-331 | an object rule stays one while the rule table grows |
| SchemaConverter.Converter.AddRule | common/json-schema-to-grammar.cpp:317-331 | the returned name has the requested body and no other rule changes; the search for a free name ends |
| SchemaConverter.Converter.AddPrimitive | common/json-schema-to-grammar.cpp:707-724 | a built-in rule enters the table; every dependency is then there, with the rule that stood under its name before or else the built-in one, and no other rule is new |
| SchemaConverter.Converter.RecursiveRefs | common/json-schema-to-grammar.cpp:668-688 | the returned text and the rest rules written on the way are those of the key list |
| SchemaConverter.Converter.Starts | common/json-schema-to-grammar.cpp:690-695 | one alternative for each optional key |
| SchemaConverter.Converter.ObjectRuleBody | common/json-schema-to-grammar.cpp:654-704 | the body is the object rule of its keys |
| SchemaConverter.Converter.VisitProperties | common/json-schema-to-grammar.cpp:620-639 | every property gets a member rule with its key as written and the rule of its schema, required and optional keys are told apart in order, and references met are handled |
| SchemaConverter.Converter.VisitAdditional | common/json-schema-to-grammar.cpp:640-652 | additional members get a rule whose key avoids the listed names |
| SchemaConverter.Converter.BuildObjectRule | common/json-schema-to-grammar.cpp:614-705 | the object rule of a schema, with its members and additional members; which additional members these are is `GrammarMembers.ExtraMember` |
| SchemaConverter.Converter.ResolveRef | common/json-schema-to-grammar.cpp:603-612 | a reference yields the rule of that name if there is one, its name alone while it is being resolved, and else the rule of its schema; where references can be told apart the rule is the one its schema asks for; the recursion ends |
| SchemaConverter.Converter.FollowRef | common/json-schema-to-grammar.cpp:603-612 | a reference is entered, its schema visited under its last component, and left again |
| SchemaConverter.Converter.AddReference | common/json-schema-to-grammar.cpp:803-805 | the rule for a `$ref` is a reference to what was resolved |
| SchemaConverter.Converter.VisitUnion | common/json-schema-to-grammar.cpp:333-339 | one alternative for each schema, in order, each built as that schema asks |
| SchemaConverter.Converter.VisitArray | common/json-schema-to-grammar.cpp:895-914 | tuples and item lists are built from their schemas' rules with the given bounds |
| SchemaConverter.Converter.VisitLeaf | common/json-schema-to-grammar.cpp:917-954 | schemas without sub-schemas get the built-in, string or integer rule they ask for, or an error is counted |
| SchemaConverter.Converter.VisitInteger | common/json-schema-to-grammar.cpp:927-944 | integer bounds give the range grammar in a group |
| SchemaConverter.Converter.Visit | common/json-schema-to-grammar.cpp:800-955 | every branch keeps the invariant of table and references and earlier rules; without errors, and with references told apart, the schema has the rule it asks for; errors are counted exactly for schemas of no known kind |
| BuiltRules.BuiltStays | common/json-schema-to-grammar.cpp:317-331 | what has been built for a schema stays so while the table grows |
| SchemaConverter.ExtraKeysAvoidNames | common/json-schema-to-grammar.cpp:646-652 | keys of additional members are never listed names, when the names are read from classes as they are |
| SchemaConverter.ObjectLanguage | common/json-schema-to-grammar.cpp:843-846 | in every reading of the final table an object rule accepts exactly the objects its schema asks for |
| SchemaConverter.Convert | common/json-schema-to-grammar.cpp:975-988 | without errors the table is closed if and only if the references met while being resolved have rules of their names; if references can be told apart it is closed, and the root and every reference met have the rule their schema asks for; where the names of built-in rules can be told apart they hold the built-in contents |
| SchemaConverter.InvalidNameDangles | common/json-schema-to-grammar.cpp:603-612 | a reference back to itself whose last component is no rule name leaves the table open, whatever else the schema holds |
| NameFaults.ChildTakesNode | common/json-schema-to-grammar.cpp:603-612 | a reference to `#/$defs/node`, a string, takes the integer rule of a property `node`, without an error |
| NameFaults.MyNodeDangles | common/json-schema-to-grammar.cpp:603-612 | a list whose nodes are called `my_node` refers to a rule that does not exist |
| NameFaults.ObjectDangles | common/json-schema-to-grammar.cpp:603-612 | so does one whose nodes are called `object` |
| References.NoReferencesApart | common/json-schema-to-grammar.cpp:603-612 | a schema without references meets the condition, whatever its names |
| Schemas.LastComponentIs | common/json-schema-to-grammar.cpp:603-604 | the name of a reference is what stands behind its last slash, or everything |
| Schemas.EscapeIs | common/json-schema-to-grammar.cpp:270-318 | a rule's name keeps letters, digits and dashes, and every run of other characters is one dash |
| NameFaults.NodeListApart | common/json-schema-to-grammar.cpp:603-612 | lists whose nodes are called `node` can be told apart |
| NameFaults.ApartIff | common/json-schema-to-grammar.cpp:317-331 | where no built-in name ends in a digit, a rule asked for under some name keeps clear of built-in names if and only if that name, with dashes for other characters, is none of them |
| NameFaults.FlatApartIff | common/json-schema-to-grammar.cpp:614-724 | for objects of constants, bounded integers and built-in types, what a caller has to check comes down to the names the properties turn into |
| NameFaults.FirstPropertyTakes | common/json-schema-to-grammar.cpp:317-331 | whenever the name of a first such property turns into a built-in one, the finished table has another rule under that built-in name |
| NameFaults.DecimalPartTaken | common/json-schema-to-grammar.cpp:317-331 | a property `decimal_part` that is null in front of a number: without an error the grammar derives `1.null` for the number, which no number of the built-in rules is |
| SchemaMeaning.LeafLanguage | common/json-schema-to-grammar.cpp:917-954 | a leaf's rule accepts the texts of its kind: strings of allowed length, decimals inside the bounds, built-ins as the given reading has them |
| SchemaMeaning.UnlistedMeans | common/json-schema-to-grammar.cpp:646-652 | among ordinary keys exactly listed names and their beginnings are ruled out for additional members |
| SchemaMeaning.SchemaLanguage | common/json-schema-to-grammar.cpp:800-955 | for every sensible schema the rule accepts exactly the texts the schema stands for, by induction over everything inside it, references read by their rules and built-in names by the given reading |
| SchemaMeaning.ReferenceLanguage | common/json-schema-to-grammar.cpp:603-612 | the rule of a reference accepts exactly what its schema stands for, built-in names read by the given reading |
| SchemaMeaning.ConvertAsRead | common/json-schema-to-grammar.cpp:975-988 | from schema to language, for any reading of the finished table: if references can be told apart the root rule accepts exactly what the schema stands for, each reference standing for what its schema stands for, circular ones too; schemas of known kinds convert without errors |
| GrammarMeaning.KeptIsSame | common/json-schema-to-grammar.cpp:707-724 | where built-in names hold the built-in contents, all that the grammar uses of them is the built-in table |
| GrammarMeaning.DerivationSame | grammars/README.md:11 | two tables that agree on names closed under reference derive the same texts for them |
| GrammarMeaning.ReadingIsDerivation | common/json-schema-to-grammar.cpp:707-724 | reading built-in names from the built-in table and all others from the grammar is then deriving from the grammar |
| GrammarMeaning.MeansSame | common/json-schema-to-grammar.cpp:800-955 | what a schema stands for depends on nothing but the built-in names and its references |
| GrammarMeaning.ConvertSensible | common/json-schema-to-grammar.cpp:975-988 | from schema to language, with a meaning of its own for every built-in rule: where references and built-in names can be told apart, the texts derived from the finished grammar are exactly those the schema stands for |
| GrammarTexts.TupleIs | common/json-schema-to-grammar.cpp:895-907 | a tuple stands for one text for each schema, in order, with commas between them |
| GrammarTexts.ObjectSpelled | common/json-schema-to-grammar.cpp:614-705 | an object schema stands for braces around the required members as listed, then some of the others in order, then additional ones where they are allowed or described, each a quoted name, a colon and a value, with commas between them |
| GrammarTexts.ChosenIs | common/json-schema-to-grammar.cpp:620-639 | the converter's required and optional keys are those properties that the schema requires, and the others, as listed |
| GrammarCases.StandsIsMeans | common/json-schema-to-grammar.cpp:800-955 | what a schema stands for, by cases on its own fields: which keyword decides, which types and formats ask for what, which bounds count |
| GrammarCases.ConvertByCases | common/json-schema-to-grammar.cpp:975-988 | the texts derived from the finished grammar, by these cases; for a reference alone those of the schema listed for it, or of any object |
| GrammarMembers.ExtraMember | common/json-schema-to-grammar.cpp:640-652 | an object with an unknown key is derived if additional members are allowed or described, and never if they are ruled out, said in another way or not at all |
| GrammarMembers.EmptyObject | common/json-schema-to-grammar.cpp:654-700 | the empty object is derived if and only if no listed property is required |
| RegexPartial.UnfoldSound | common/regex-partial.cpp:135-148 | copies of the written-out parts add up to an allowed number of repetitions |
| RegexPartial.UnfoldComplete | common/regex-partial.cpp:135-148 | every allowed number of repetitions can be dealt out to the parts |
| RegexPartial.AnyCovered | common/regex-partial.cpp:177-198 | the rewriting accepts the reverse of every opening of every word of the pattern |
| RegexPartial.PartialComplete | common/regex-partial.cpp:71-204 | every non-empty beginning of a match is accepted, reversed, whatever the pattern |
| RegexPartial.StoppableExact | common/regex-partial.cpp:177-198 | a group in which every part but the first of a sequence may be missing is rewritten into itself, reversed |
| RegexPartial.AnySound | common/regex-partial.cpp:71-204 | with such groups anywhere and others only at the end of a sequence, read at most once, what is accepted is the reversed beginning of a word |
| RegexPartial.PartialExact | common/regex-partial.cpp:71-204 | for such patterns exactly the reversed beginnings of matches are accepted |
| RegexPartial.ReportedMeans | common/regex-partial.cpp:31-47 | the reported position is the one whose remaining input is accepted, reversed |
| RegexPartial.SearchReports | common/regex-partial.cpp:17-49 | a partial match can be reported where the rest of the input begins a match, and for such patterns only there |
| RegexPartial.EarlyAccepted | common/regex-partial.cpp:177-198 | in every pattern every group may be left early, and what follows it is read on |
| RegexPartial.EarlyBreaks | common/regex-partial.cpp:177-198 | any pattern with a group that can be left where no match goes on is inexact |
| RegexPartial.WordsLeftEarly | common/regex-partial.cpp:177-198 | letters, a group of words, a letter and anything behind it: wherever a word may be left and no word has ended or goes on with that letter, a text that begins no match is accepted |
| RegexPartial.LettersInGroupsFit | common/regex-partial.cpp:65 | `(b)d` and a starred group of single letters in front of `c` are among the exact patterns |
| RegexPartial.MiddleGroupInexact | common/regex-partial.cpp:65 | for `(bc)d` the text `bd` is accepted although no match begins that way |
| RegexText.CollectItem | common/regex-partial.cpp:80-175 | the lexemes of one item add exactly that item's parts |
| RegexText.RewriteAny | common/regex-partial.cpp:75-200 | on the lexemes of any pattern tree, reluctant quantifiers included, the pass yields the text of the tree's rewriting and stops at its end |
| RegexText.WriteChain | common/regex-partial.cpp:184-198 | the two loops over the parts write the nested optional groups |
| RegexText.WriteAlternatives | common/regex-partial.cpp:182-200 | alternatives are written in order with bars, and an empty one is an error; what is read there is `RegexReader.TextIsRead` |
| RegexText.Process | common/regex-partial.cpp:75-200 | the pass with its growing alternatives computes the rewriting of the lexemes up to a closing parenthesis, errors included |
| RegexText.ToReversedPartialRegex | common/regex-partial.cpp:71-204 | the capturing group and the tail around it; lexemes left over are an error; what is read there is `RegexReader.TextIsRead` |
| RegexText.RewriteTree | common/regex-partial.cpp:71-204 | for every pattern tree the result is the text of the rewriting whose language is proved, and which `RegexReader.TextIsRead` reads |
| RegexReader.AltsSame | common/regex-partial.cpp:177-198 | what an engine reads in the text written for alternatives has their language |
| RegexReader.TextIsRead | common/regex-partial.cpp:177-204 | the returned text is one pattern: a group and anything behind it |
| RegexReader.WholeMeans | common/regex-partial.cpp:177-204 | on reversed input it matches if and only if the rewriting accepts some beginning of that |
| RegexLexer.ScanClass | common/regex-partial.cpp:80-98 | a class ends at the first bracket that is not escaped |
| RegexLexer.Lexemes | common/regex-partial.cpp:79-175 | the pass over the characters cuts a pattern into symbols, brackets, bars, quantifiers and ranges |
| RegexLexer.PatternCut | common/regex-partial.cpp:79-175 | every text that an engine reads as a pattern is cut into the lexemes of that pattern |
| RegexLexer.ReversedPartialRegex | common/regex-partial.cpp:71-204 | from text to text: for every pattern whose alternatives have parts and whose ranges are in order the returned text is a pattern whose group has the language of the rewriting |
| RegexLexer.SearchFinds | common/regex-partial.cpp:17-49 | wherever the rest of the input begins a match that group accepts it, reversed; for the patterns described above nothing else |
| Sampling.PlainResumes | common/sampling.cpp:338-382 | plain decoding may be interrupted and resumed |
| Sampling.DrawPermitted | common/sampling.cpp:338-382 | where the grammar permits what is drawn from its own scores, it permits every token drawn |
| Sampling.FirstDrawStands | common/sampling.cpp:338-382 | a first draw that is permitted is returned after one selection; otherwise the second one is made from filtered scores |
| Sampling.PlainPermitted | common/sampling.cpp:384-412 | every token of plain decoding is permitted by the grammar state that the tokens before it leave |
| Sampling.PlainGrammar | common/sampling.cpp:300-308 | the grammar state is the one all tokens leave, one after the other |
| Sampling.PlainHistory | common/sampling.cpp:44-53 | the history holds the newest tokens, as many as fit |
| Sampling.RingBuffer.PushBack | common/sampling.cpp:44-53 | appends, dropping the oldest token when full |
| Sampling.RingBuffer.Rat | common/sampling.cpp:65-70 | the i-th token from the newest, an error outside |
| Sampling.RingBuffer.ToVector | common/sampling.cpp:72-79 | the content, oldest first |
| Sampling.Sampler.Sample | common/sampling.cpp:338-382 | one draw, with the second draw under the grammar when the first token is not allowed; where filtered draws are permitted, so is the token returned, and a first draw that is permitted is the one returned |
| Sampling.Sampler.Accept | common/sampling.cpp:300-308 | grammar, chain and history take the token, the grammar only when asked |
| Sampling.Sampler.SampleAndAcceptN | common/sampling.cpp:384-412 | for every draft the result and the sampler's final state are those of plain decoding; it follows the draft up to its last token and has at most one token more; every token is permitted by the grammar state that the tokens before it leave |
| Sampling.RoundUnique | common/sampling.cpp:384-412 | a round stops at the first token where plain decoding leaves the draft, neither earlier nor later |
| Sampling.RunIsPlain | common/sampling.cpp:384-412 | over any run with any drafts the emitted stream and the sampler's state are those of plain decoding, and every round emits a token |
| DraftContext.Memory.SeqSubtract | common/speculative.cpp:708-710 | positions move down, keeping their tokens |
| DraftContext.Memory.Decode | common/speculative.cpp:721-748 | tokens are evaluated at consecutive new positions inside the context |
| DraftContext.Drafter.FindReuse | common/speculative.cpp:669-684 | the stretch kept is the longest worthwhile agreement with the window, and the first of these |
| DraftContext.ReuseIs | common/speculative.cpp:669-684 | what is kept is the longest beginning of the window that occurs in the draft context, at its first place; one shorter than `n_reuse` only if the whole prompt fits |
| DraftContext.Drafter.Keep | common/speculative.cpp:690-718 | the kept stretch is moved to the front in memory and mirror alike |
| DraftContext.Drafter.DraftTokens | common/speculative.cpp:753-788 | the loop drafts what greedy drafting over a plain token list drafts |
| DraftContext.GreedyIs | common/speculative.cpp:753-788 | a greedy draft holds the model's best token at every place, goes on while it is likely enough, and ends at the first that is not or at the limit |
| DraftContext.Drafter.GenDraft | common/speculative.cpp:624-800 | memory and mirror agree and fit the context after every call; the draft is at most `n_draft` long; off the early return the mirror is the prompt's window, the last token and the draft but its last token |
| DraftContext.CallIs | common/speculative.cpp:624-800 | a call hands back at most `n_draft` tokens behind the stretch kept and the last token, where that stands there, or drafts behind the end of the prompt and that token |
| DraftContext.HandedBackContinuesIff | common/speculative.cpp:694-706 | what is handed back continues the present context in the draft context if and only if the whole window occurs there |
| DraftContext.HandedBackAfterShortMatch | common/speculative.cpp:694-706 | an instance where it does not |
| DraftContext.AgreedDraftIsHandedBack | common/speculative.cpp:694-706 | after the target model agreed with the start of a draft, the rest of it is handed back |
| NgramSpec.HashOfCopy | common/ngram-map.cpp:10-20 | equal token runs have equal hashes |
| NgramDrafts.HashIs | common/ngram-map.cpp:10-20 | the hash is the polynomial of the tokens in 2654435761, in 32 bits |
| NgramSpec.CleanBelow | common/ngram-map.cpp:188-203 | cleaning leaves no value at or behind the cut and invents none |
| NgramSpec.CleanKeysAre | common/ngram-map.cpp:171-210 | the keys left are cleaned old keys before the cut |
| NgramDrafts.SurvivesIff | common/ngram-map.cpp:171-210 | a key outlives a cleanup if and only if it starts before the cut and, where values are kept, one of its values does; these all stay |
| NgramMap.NgramMap.Begin | common/ngram-map.cpp:121-219 | the new state is that of the cleaning function, for a history of any length; under the condition on its length everything left fits it |
| NgramSpec.BeginSound | common/ngram-map.cpp:121-219 | after a start of an allowed length keys, hash entries and values all fit the new history |
| NgramDrafts.StartKeeps | common/ngram-map.cpp:121-219 | a start keeps everything while the history has not become shorter, and else exactly the hash entries, keys and values before the last start, or before the last n + m tokens if the history ends there |
| NgramSpec.MayBeginIff | common/ngram-map.cpp:128-136 | the condition is exact: for every other length there is a sound map of which a value is kept whose m tokens leave the new history |
| NgramRuns.ShortenedRun | common/ngram-map.cpp:121-516 | drafts and starts from an empty map that end with such a value |
| NgramMap.KeepTooMuch | common/ngram-map.cpp:121-516 | the same run as calls of the methods |
| NgramSpec.MapStillAgrees | common/ngram-map.cpp:318-340 | hash entries stay right while the history grows |
| NgramSpec.AddHashesStay | common/ngram-map.cpp:318-340 | what enters the hash map fits the history and stands under its hash |
| NgramSpec.SearchFinds | common/ngram-map.cpp:254-312 | a position found is a real occurrence that fits; if none is found there is none where the search looks |
| NgramDrafts.SearchOrder | common/ngram-map.cpp:254-312 | an entry of the hash map that reads as the key goes first, then the last occurrence that fitted at the last start, then the last one behind it |
| NgramDrafts.HashesAre | common/ngram-map.cpp:318-340 | a free slot gets the last position that belongs there, of those that fitted at the last start or else of the later ones; a slot that is taken stays |
| NgramMap.NgramMap.Search | common/ngram-map.cpp:254-312 | first the hash map, then the last occurrence before the last start, then the last one behind it |
| NgramMap.NgramMap.AddHashes | common/ngram-map.cpp:318-340 | positions enter free slots in the order of the search |
| NgramMap.NgramMap.FindKey | common/ngram-map.cpp:346-361 | the first stored key that reads as the n-gram |
| NgramMap.NgramMap.FindSlot | common/ngram-map.cpp:425-450 | the first slot that is unused or holds the m-gram |
| NgramMap.NgramMap.CountValues | common/ngram-map.cpp:408-458 | every occurrence of the key from the last statistics to the match is counted for the m-gram behind it; no read leaves the history |
| NgramRuns.CountsAre | common/ngram-map.cpp:408-458 | a pass counts every slot up by the number of positions where the key is followed by its m-gram; slots in use stay and differ |
| NgramRuns.FirstCountTrue | common/ngram-map.cpp:408-458 | at the first pass the counts are the true ones |
| NgramRuns.RecountIff | common/ngram-map.cpp:408-458 | at a later pass a true count stays true if and only if the slot does not hold the m-gram behind the match of the pass before |
| NgramMap.NgramMap.Favourite | common/ngram-map.cpp:460-478 | the first most frequent value and the sum of the others |
| NgramMap.NgramMap.Draft | common/ngram-map.cpp:221-516 | draft and new state are those of the specification, no read leaves the history, and what is stored keeps fitting it |
| NgramRuns.DraftIs | common/ngram-map.cpp:221-516 | a draft stands behind the match the search finds, under a key that reads as the last n tokens, and is as long as the chosen value was accepted last, which may be 0; without values a match always sets the flag that a draft was made |
| NgramDrafts.DraftMadeIff | common/ngram-map.cpp:221-516 | a draft is made if and only if the history is long enough, there is a match, and either no values are kept or the key was met often enough and one value twice as often as the others together; it stands behind the match, as long as that value was accepted last |
| NgramFavourite.CountGrams | common/ngram-map.cpp:408-458 | after a pass the places hold the m-grams stored before and then those that follow the key, each once, as they are met, four in all |
| NgramFavourite.CountIsTotal | common/ngram-map.cpp:408-458 | a place in use then counts what was stored for its m-gram and its occurrences up to the match, as far as counts go; the places still differ |
| NgramFavourite.ChosenIff | common/ngram-map.cpp:408-478 | the chosen place holds an m-gram if and only if that one has a place and none of the others was seen more often |
| NgramFavourite.FavouriteDraftedIff | common/ngram-map.cpp:460-515 | a full draft is the most frequent m-gram if and only if the m-gram behind the match has a place and none of the others was seen more often, in stored counts and occurrences since |
| NgramFavourite.FirstDraftIff | common/ngram-map.cpp:460-515 | for a key met for the first time: if and only if it is one of the first four m-grams that follow the key and no other of these follows it more often up to the match |
| NgramRuns.DraftsAnotherValue | common/ngram-map.cpp:460-515 | a history where token 1 is the most frequent and token 2 is drafted |
| NgramMap.NgramMap.Accept | common/ngram-map.cpp:518-536 | only the chosen value of the chosen key changes, to the accepted length |
| NgramMod.Table.Idx | common/ngram-mod.cpp:15-25 | the slot is the 64-bit hash reduced to the table's size |
| NgramMod.HashIs | common/ngram-mod.cpp:15-25 | the hash is the polynomial of the tokens in 6364136223846793005, in 64 bits |
| NgramMod.Table.Add | common/ngram-mod.cpp:27-35 | the slot takes the follower, and `used` counts additions to slots that were empty |
| NgramMod.UsedIsFilledIff | common/ngram-mod.cpp:27-35 | that is the number of slots in use if and only if -1 was never added; otherwise it is too high |
| NgramMod.Table.Get | common/ngram-mod.cpp:37-41 | the follower added last for that slot |
| NgramMod.Table.Reset | common/ngram-mod.cpp:43-46 | every slot is empty and none in use |
| NgramMod.FollowerIsLast | common/ngram-mod.cpp:27-41 | a slot holds the last follower added for it since the reset, and is empty when there was none |
| NgramMod.ChainLooksUp | common/speculative.cpp:460-473 | each drafted token is the table's answer for the n tokens before it, and a short draft ends where there is none |
| NgramMod.CatchingUpCovers | common/speculative.cpp:443-449 | as the prompt grows, catching up from the drafter's mark covers the prompt up to the new mark |
| NgramMod.CoveredIsKnown | common/speculative.cpp:443-449 | in a covered prompt the table holds, for each n-gram before the mark, the follower added last for its slot |
| NgramMod.AfterResetIff | common/speculative.cpp:486-503 | right after a reset a sequence is covered if and only if its mark is 0 |
| NgramMod.TwoSequences | common/speculative.cpp:426-503 | five refused drafts of a second sequence empty the table, the mark of the first stays, and it drafts nothing and does not catch up |
| NgramMod.Drafter.Begin | common/speculative.cpp:399-424 | the prompt's n-grams are added, or the table is reset when more than a quarter full; the sequence is covered then, and so stays every other one that was, after a reset only those with mark 0 |
| NgramMod.Drafter.Draft | common/speculative.cpp:426-484 | catches up when behind, then drafts the chain of look-ups; its length is 0, the maximum, or from the minimum up to it; over a growing prompt the sequence stays covered, and so do the others |
| NgramMod.Drafter.ShiftDown | common/speculative.cpp:475-478 | moving inside the buffer leaves just the drafted tokens |
| NgramMod.Drafter.Accept | common/speculative.cpp:486-506 | five low rounds in a row reset the table, a good one restarts the count; a reset leaves covered the sequence itself and those with mark 0 |
| NgramCache.CountsDetermine | common/ngram-cache.h:61-65 | two caches without waste and with equal counts are equal |
| NgramCache.Update | common/ngram-cache.cpp:12-52 | every count grows by the true number of new positions where the token follows the n-gram |
| NgramCache.FollowsIs | common/ngram-cache.cpp:12-52 | for real tokens: a token follows an n-gram of some length where just that many tokens before it are those of the n-gram, in order |
| NgramCache.NgramsDiffer | common/ngram-cache.h:20-30 | lists of at most four tokens make the same n-gram if and only if they are the same list |
| NgramCache.SeenAllSplits | common/ngram-cache.cpp:18-20 | occurrences in a longer list are those in the shorter one and those at new positions |
| NgramCache.ChunksCount | common/ngram-cache.cpp:12-52 | after any sequence of appended chunks the counts are the true ones |
| NgramCache.ChunksAreOnePass | common/ngram-cache.cpp:12-52 | the cache is then the one a single pass makes |
| NgramCache.Merge | common/ngram-cache.cpp:261-286 | counts are added pointwise in whatever order the maps are walked |
| NgramCache.Save | common/ngram-cache.cpp:200-221 | the file lists every key once and every token of a key once, in some order |
| NgramCache.RecordLiesAt | common/ngram-cache.cpp:200-221 | where a record lies: four tokens, the number of counts, and each token with its count |
| NgramCache.RecordsRoundTrip | common/ngram-cache.cpp:200-259 | reading back the records of a file gives the records written |
| NgramCache.Load | common/ngram-cache.cpp:223-259 | the cache of the file's records, or an error |
| NgramCache.CutFile | common/ngram-cache.cpp:223-259 | a saved file cut inside an n-gram is read as the records before it, one cut behind an n-gram and before the end of its record is an error |
| NgramCache.HoldsOne | common/ngram-cache.cpp:200-259 | a file holds at most one cache, and reading it gives that one |
| NgramCache.SaveThenLoad | common/ngram-cache.cpp:200-259 | loading what was saved gives the same cache for every order |
| LongestRun.BackIff | common/common.cpp:1263-1267 | a run of some length ends at two positions if and only if the table entry is at least that length |
| LongestRun.CommonLcs | common/common.cpp:1239-1286 | the result is the greatest length of a run both lists share |
| Json.AcceptsIff | common/json-partial.cpp:115-133 | the parser accepts a token list as a document exactly when the grammar writes that document so |
| Json.ViablePrefixIff | common/json-partial.cpp:115-118 | the parser refuses a token exactly when no document goes on that way |
| Json.ReadRun | common/json-partial.cpp:39-112 | the open containers and what is complete in them determine the text read |
| Json.CutIsOpen | common/json-partial.cpp:117-118 | a document cut inside has a container open |
| JsonHealing.ErrorLocator.EndObject | common/json-partial.cpp:92-97 | the asserted top element is taken off and a pending key with it |
| JsonHealing.ErrorLocator.EndArray | common/json-partial.cpp:106-111 | the same for arrays |
| JsonHealing.SaxParser.Feed | common/json-partial.cpp:60-111 | the handler's assertions hold at every call, and its stack stays the path of open containers and pending keys |
| JsonHealing.SaxParse | common/json-partial.cpp:113-118 | the parser reads as far as the grammar allows and leaves the path to that point on the stack |
| JsonHealing.CanParse | common/json-partial.cpp:132-139 | true exactly for documents |
| JsonHealing.ClosingOf | common/json-partial.cpp:159-169 | the closing text closes all open containers, innermost first |
| JsonHealing.HealInMember | common/json-partial.cpp:173-197 | after a key or its colon the marker becomes the key's value |
| JsonHealing.HealInArray | common/json-partial.cpp:198-218 | in an array the marker becomes the next item, or replaces a value that may be a cut number; which these are is `JsonHealing.HealedIs` |
| JsonHealing.HealInObject | common/json-partial.cpp:219-240 | in an object the marker becomes a key, or replaces such a value |
| JsonHealing.Parse | common/json-partial.cpp:33-255 | a document is parsed, a text without open container or marker is left, anything else becomes the document with the marker at the cut; where the refused token is one character |
| JsonHealing.HealTruncated | common/json-partial.cpp:113-249 | every document cut between two tokens is healed into a document |
| JsonHealing.HealedIs | common/json-partial.cpp:141-246 | the healed text by the last token: behind a number, `true` or `false` without a blank the marker replaces it, behind everything else the text stays and the marker is added as item, key or value |
| JsonHealing.HealedKeepsText | common/json-partial.cpp:170-246 | the text stays in front of what healing adds, but for a scalar at its end that looks like a cut number, in whose place the marker stands |
| JsonHealing.HealedKeepsAllIff | common/json-partial.cpp:170-246 | the whole text stays if and only if its end does not look like that |
| JsonHealing.TrueIsCut | common/json-partial.cpp:141-157 | `[true` becomes the marker in brackets |
| LogQueue.StepKeepsInv | common/log.cpp:195-328 | every step of every thread keeps the messages accounted for and the end mark last |
| LogQueue.RunKeepsInv | common/log.cpp:195-328 | so does every run in which pauses find two free slots |
| LogQueue.EveryRunKeeps | common/log.cpp:195-328 | every other run keeps it until a late pause, and from then on nothing is printed but what the worker held |
| LogQueue.PrintedInOrder | common/log.cpp:195-328 | in every run, late pauses included, the output is always a beginning of the accepted messages, and all of them when a pause returns |
| LogQueue.OnlyTheWorkerMoves | common/log.cpp:306-328 | while a pause waits, additions change nothing and every worker step brings the end nearer |
| LogQueue.PauseEnds | common/log.cpp:306-328 | a waiting pause can be brought to its end in a bounded number of steps |
| LogQueue.PauseReturnsIff | common/log.cpp:306-328 | a pause can return if and only if it finds two free slots |
| LogQueue.LatePauseLoses | common/log.cpp:316-321 | otherwise nothing pending is ever printed |
| LogQueue.LatePauseHappens | common/log.cpp:195-321 | for every capacity a run reaches such a pause |
| LogQueue.PendingPush | common/log.cpp:246-247 | writing at the tail appends, unless the tail meets the head and the ring looks empty |
| LogQueue.AllAreAdded | common/log.cpp:195-271 | while the log runs any number of additions are all accepted and pending, in order |
| LogQueue.NoneIsAdded | common/log.cpp:195-203 | after a pause none is |
| LogQueue.ResumedLogPrints | common/log.cpp:273-304 | after a resumption the next message is accepted, taken and printed |
| LogQueue.Log.Add | common/log.cpp:195-271 | the locked section is the protocol's step: append, growing before the ring is full, or discard when not running |
| LogQueue.Log.Grow | common/log.cpp:247-268 | the move into the larger ring keeps content and order |
| LogQueue.Log.Take | common/log.cpp:284-295 | the worker takes the oldest entry, or ends on the mark |
| LogQueue.Log.Pause | common/log.cpp:306-325 | running ends and the mark is written without growing |
| LogQueue.Log.Resume | common/log.cpp:273-304 | a new worker starts unless one is running |
| ChatDiff.StringDiff | common/chat.cpp:31-44 | the rest of the text; nothing when it shrank to a beginning; else an error |
| ChatDiff.ComputeDiffs | common/chat.cpp:85-124 | the method's list of differences is the specified one, errors included |
| ChatDiff.DiffsExistIff | common/chat.cpp:85-124 | differences can be computed if and only if texts and the last call's arguments grow or shrink at their ends, no call is gone and the last one has its name |
| ChatDiff.DiffsSay | common/chat.cpp:85-124 | what they are, in order: the rests of reasoning and content, of the last call's arguments, with its name only along with another id, and every new call whole |
| ChatDiff.ReplayIff | common/chat.cpp:85-124 | replaying the differences on the earlier message gives the later one if and only if that only adds to it |
| ChatDiff.EnsureToolCallIdsSet | common/chat.h:47-58 | calls take the recorded ids, new ones are recorded, generated only where missing |
| ChatDiff.IdsAre | common/chat.h:47-58 | a new call's id is its own, or where it has none the next one generated; as many are generated as are missing |
| ChatDiff.IdsStay | common/chat.h:47-58 | an id never changes once it is recorded |
| ChatDiff.StreamRebuilds | common/chat.cpp:85-124 | over any stream of growing messages all differences can be computed and the client ends with the latest message, ids included |
| Base64.LetterRoundTrip | common/base64.hpp:344-388 | every letter of either alphabet is read back, also with automatic detection |
| Base64.LastLetters | common/base64.hpp:344-388 | the last two letters of either alphabet |
| Base64.JoinThree | common/base64.hpp:91-141 | the six-bit values hold the bits of the three bytes |
| Base64.Encoded | common/base64.hpp:338-341 | the encoded length is the required size |
| Base64.Encode | common/base64.hpp:80-144 | the loop writes the encoding group by group |
| Base64.RfcExamples | common/base64.hpp:80-144 | the encodings of `f`, `fo`, `foo` and `foobar` are those of section 10 of RFC 4648 |
| Base64.QuadDecodes | common/base64.hpp:200-244 | one to three encoded bytes decode to themselves |
| Base64.RoundTrip | common/base64.hpp:200-244 | decoding an encoding gives the bytes back, for both alphabets, automatic detection and both behaviours |
| Base64.DecodesIff | common/base64.hpp:200-244 | a text is decoded if and only if the letters before its padding are of one alphabet and, unless loose, nothing but padding follows; how many bytes that gives |
| Base64.DecodeSize | common/base64.hpp:324-327 | no decoding is longer than the advertised maximum |
| Base64.DecodeInPlace | common/base64.hpp:294-313 | decoding over the text itself writes the bytes of decoding elsewhere, errors included |

## Left out

- `allOf`, `pattern`, remote references and `resolve_refs`: schemas come with their reference table; the `$ref` chain of `allOf` is unguarded and the pattern translation is ad hoc escaping.
- Characters beyond ASCII in names and constants: a character is one code point here, while the trie of names splits them into bytes.
- SchemaMeaning.SchemaLanguage: is for schemas whose constants and names are read back as they are, whose integer bounds are exact, whose property names differ and are not `*`, and whose lists, unions and ranges are not empty; for the rest the lemmas named above say what goes wrong.
- GrammarMeaning.ConvertSensible: telling references and built-in names apart is sufficient; it is not necessary, since a name may be taken by a rule that happens to be the same, or one that is never used.
- IntRangeText.EmitBounded: a minimum above the maximum, where the program compares digit strings of unrelated lengths and writes a text all the same.
- IntRangeText.BoundedNests: the same.
- SchemaConverter.Converter.VisitInteger: a minimum above the maximum is counted as an error, where the program writes that text.
- SchemaConverter.Converter.ResolveRef: a reference that is not in the table stands for the empty schema, as the program's map lookup makes it.
- NotStrings.WalkExact: keys with escapes, and names that are not read from classes as they are (`KeyFaults.WalkBreaks` is about those); the trie is a value and not nodes changed in place.
- KeyFaults.KeysExactIff: names and keys of characters that need no escape in JSON.
- IntRange.LowerExactIff: is about numerals of at most sixteen digits, the limit the grammar itself has.
- RegexPartial.PartialExact: patterns whose groups neither may be left early nor end their sequence are proved complete, and inexact where an early exit leads to no match (for groups of words a condition on the pattern is `RegexPartial.WordsLeftEarly`); patterns that are exact only because all early exits happen to be matched elsewhere are not told.
- RegexText.RewriteAny: `{m,n}?`, whose question mark is taken for a quantifier of the last copy, has no tree.
- RegexText.Process: an alternative without parts is an error, where the program's loop bound wraps around.
- RegexLexer.Lexemes: counts with signs, blanks or other characters are errors, where `std::stoi` reads what it can; a class that ends in a backslash is one, where the program reads on.
- RegexReader.TextIsRead: assertions of zero width, captures and back references are not read; symbols are literals, escapes of two characters and classes.
- GrammarReader.ShowIsRead: literals and classes that need no escape, and repetitions with bounds in order.
- SchemaConverter.Convert: rule bodies are expressions; their text is written and read back for integer ranges, literals and classes.
- The choice among several possible captures in `std::regex`; matches are languages here.
- Sampling.Sampler.Sample: scores, grammars and sampler chains are parameters; candidate arrays and floating-point arithmetic are not modelled.
- `ring_buffer::back`, which reads the slot to be written next, and the other small accessors.
- DraftContext.Drafter.GenDraft: draft and target share one vocabulary, so the path that translates prompts into text and back is not modelled, and `1 <= n_draft <=` the draft context's size; the memory is a map from positions to tokens, and evaluation never fails.
- NgramMap.NgramMap.Draft: key length must not be zero, and the history not shorter than at the last check, where the program aborts.
- NgramMod.Drafter.Draft: a missing prompt or result pointer, for which the program returns.
- NgramCache.Update: counts are unbounded, progress reports are left out; `common_ngram_cache_draft` and its thresholds are not modelled.
- NgramCache.Load: files are whole numbers of 32-bit words.
- JsonHealing.Parse: works on tokens, so cuts inside strings, escapes and literals and `json_dump_marker` are not modelled; where a token of several characters is refused the program keeps all of it but its last character, and nothing is said.
- LogQueue.Log.Add: formatting, timestamps, colours and the output file are not modelled; one controller pauses and resumes, as `set_file` and `set_colors` do.
- ChatDiff.ComputeDiffs: role, content parts and tool names of a message take no part in differences.
- Base64.Decoded: reads byte sequences; other iterators and element types are not modelled.
- `gguf-py/convert_row4_qwen3.py`: the tensor plan is bookkeeping over fixed lists of names and would only add easy members.
- The multi-sequence driver of speculative decoding and the other drafters (`common_ngram_simple_draft`, n-gram cache drafting): they only call what is modelled or repeat it in a simpler form.
- Command line options, downloads, console, chat templates, file publishing and build scripts: input and output only.
