# Grammars, tensors, logs and encodings of the vendored llama.cpp: a model with proofs

The repository vendors a copy of llama.cpp under `scrapers/llama.cpp`. This project models the algorithms in it whose
correctness cannot be read off their text, and proves what they are for.

* **JSON schema to grammar** (`common/json-schema-to-grammar.cpp`). `Gbnf` gives the rules a syntax tree and a
  meaning: what a body denotes when every rule name denotes some language. `LeastSolution` shows that every table of
  rules has a least solution, so that claims about all solutions of a table are claims about a grammar that exists.
  `Derivations` counts in how many ways a body derives a sequence of names. On top of that stand the generators:
  integer bounds (`IntegerRule`, `IntegerBounds`, with decimal order in `Decimal`), lists (`Repetition`), words that
  are none of some names (`NotStrings`; what the grammar reader makes of the class texts it writes, byte by byte, is in
  `ByteReader` and `ClassText`), regular expressions (`Regex`, `Pattern`, and `PatternBytes` for characters of several
  bytes), object members (`ObjectKeys`, `ObjectRule`, their derivations in `ObjectCounts`), the growing rule table
  (`Rules`), the built-in rules (`BuiltinRules`), and the text of literals as it is written and read back (`Literal`).
  `JsonTexts` defines the texts of JSON values, numbers, strings, UUIDs, dates and times without reference to any rule;
  `BuiltinTexts`, `JsonValues` and `BuiltinMeaning` show that the built-in rules denote just these. `SchemaSpec` says
  which JSON texts a schema describes, given what the referenced schemas denote, and which names the rules of a schema
  can take; `SchemaValues` says which JSON values satisfy a schema, and that those texts are theirs.
  `Converter.SchemaConverter` is `visit` and what it calls, as a class that updates the table, the set of references
  being resolved, the list of errors, and nothing else; its lemmas are in `ConverterState`, `ObjectParts` and
  `PartTexts`. `Conversion` is a whole run. `Constants` and `Captures` are about references that are looked up by name
  and meet another's rule.
* **Low-rank tensors** (`convert_lora_to_gguf.py`). `Tensors` models the torch operations on index functions, `Lora`
  the operations on the two factors, `LoraPrograms` any program of them, and the row shuffles of
  `convert_hf_to_gguf.py`, `LoraSuccess` when they go through.
* **The log queue** (`common/log.cpp`). `LogQueue` has the protocol between the threads as steps under the lock, and
  the ring buffer as a class whose methods are those steps.
* **Smaller algorithms**: base64 with its bit window, sticky alphabet and in-place decoding (`Base64`), the merging of
  expert tensors (`Experts`), byte-pair splitting (`Bpe`), the records of old GGML files (`Ggml`), the two-row longest
  common run (`Lcs`).

`dafny verify dfyconfig.toml` checks everything.

## What is found out about the code

Where the code does not do what it is meant to do, the model keeps the code, and the exact condition is proved.

* The grammar for integer bounds is exact if and only if `IntegerBounds.Exact` holds of the bounds: always for two
  bounds in order or a negative minimum, the minimum being above -INT_MAX; for a nonnegative minimum alone only if its
  digits between the first and the last are all 2 or more (100 fails); for a negative maximum alone and for bounds out
  of order only in a few cases. In every other case a word is exhibited on which the grammar is wrong
  (`IntegerBounds.BuildMinMaxInt`).
* `build_repetition` with a separator and maximum 0 writes a repetition the grammar reader refuses, and so it does with
  a negative maximum (`Repetition.RepetitionReadable`).
* The rule for words that are none of some names is right if and only if the names fit character classes
  (`NotStrings.NamesRightIffFits`, `NotStrings.FitsIffNamesFit`): no caret, closing bracket, quote or backslash, nothing
  beyond ASCII, and wherever a name goes on with a hyphen, either no name goes on with a later character, or names go
  on with both the comma and the full stop. The names "-" and "a" make a range (`NotStrings.HyphenMakesRange`); a
  character of two bytes is split between two nodes (`NotStrings.AccentIsSplit`). With only empty names the rule lets
  the empty word through (`NotStrings.OtherNamesAreOthers`).
* A quantifier reaches a character of a pattern if and only if that is ASCII: otherwise it reaches the last byte only
  (`PatternBytes.CarriesIffAscii`). On a closing bracket or brace outside a class the scan stands still for ever
  (`Pattern.StandsStill`).
* `format_literal` is read back as it was meant if and only if the literal contains no backslash
  (`Literal.LiteralRoundTrip`): JSON strings with escapes do not survive as `const` or `enum`.
* Reserved names are compared before they are escaped: the rule of a schema goes for a built-in name exactly if its
  name is no rule name and is escaped to one (`BuiltinRules.EscapedNameIsBuiltin`), and built-in rules survive an
  addition exactly if `Rules.KeepsBuiltins` holds; a property called `decimal_part` replaces one
  (`BuiltinRules.AddDecimalPart`).
* A reference is looked up by the last part of its path among all rules there are. In an object whose properties are
  constants or refer to constants, each property denotes its own schema if and only if that name was free or stood for
  the same constant (`Constants.EntryRightIff`); with a property `a`, the constant 1, a property `b` that refers to the
  definition `a`, the constant 2, denotes 1 (`Captures.OtherSchemaFound`).
* With additional properties beside declared ones, the key of an additional entry need not be a JSON string: a lone
  backslash in quotes passes. The keys are strings if and only if no declared key has a character
  (`SchemaValues.KeysAreStringsIff`). Nor need what a pattern matches be the inside of a string: a dot lets a quote
  through (`SchemaValues.OpenDot`).
* Indexing the factors of a low-rank tensor indexes the product if and only if the index does not hold two lists, or a
  list and a number, whose places torch would pair or move (`Lora.IndexDense`, `Lora.CornerForDiagonal`).
* Permuting the factors can get past dimensions out of range that torch refuses for the product
  (`LoraSuccess.BeyondRange`).
* `pause` returns if and only if fewer than `capacity - 1` entries are pending; otherwise the worker waits for ever
  and the pending entries are never printed (`LogQueue.PauseReturnsIffRoom`).
* The byte count of a tensor in a GGML file is right if and only if elements times block bytes stay below 2 to the 63
  (`Ggml.CountIsRightIff`).

## Model

| member | source | states |
|---|---|---|
| Gbnf.BodyAlt | scrapers/llama.cpp/src/llama-grammar.cpp:323-345 | In a flat rule text the bar binds weakest: two bodies with a bar between them denote the union, whatever bars they hold themselves. |
| Literal.LiteralRoundTrip | scrapers/llama.cpp/common/json-schema-to-grammar.cpp:382-388 | A literal's text is read by the grammar reader as the literal, to its closing quote, if and only if it holds no backslash. |
| Literal.ReadOfEscaped | scrapers/llama.cpp/src/llama-grammar.cpp:159-181 | Reading back an escaped literal without backslashes yields its characters and leaves the text after the closing quote. |
| Decimal.DecOrder | scrapers/llama.cpp/common/json-schema-to-grammar.cpp:186-197 | Numeric order is the order of decimal texts by length and then lexicographically. |
| Decimal.CanonicalIsDec | scrapers/llama.cpp/common/json-schema-to-grammar.cpp:186-197 | Digit strings without a leading zero are exactly the decimal texts of numbers. |
| IntegerRule.UniformRange | scrapers/llama.cpp/common/json-schema-to-grammar.cpp:114-169 | The text for two digit strings of equal length denotes exactly the strings between them. For ends out of order it lets the upper end through, or nothing if only the last digits are out of order. |
| IntegerRule.SplitRange | scrapers/llama.cpp/common/json-schema-to-grammar.cpp:127-167 | The part after the common prefix, split at the first digit, denotes exactly the strings between its ends; it always lets the upper end through. |
| IntegerRule.BetweenSplit | scrapers/llama.cpp/common/json-schema-to-grammar.cpp:127-167 | An interval of digit strings with different first digits is the union of the lower edge, the full middle and the upper edge. |
| IntegerBounds.BuildNonNegative | scrapers/llama.cpp/common/json-schema-to-grammar.cpp:186-197 | The loop over lengths writes exactly the numerals from the minimum to the maximum; of bounds out of order, nothing if they differ in the last digit only, else a text that lets the maximum through. |
| IntegerBounds.BuildBetween | scrapers/llama.cpp/common/json-schema-to-grammar.cpp:171-197 | With two bounds of any signs the grammar is exact: the numerals of the integers within, and "-0" if the minimum is negative and the maximum is not. |
| IntegerBounds.BuildMinMaxInt | scrapers/llama.cpp/common/json-schema-to-grammar.cpp:86-268 | For all `int` bounds, in order or not: it throws exactly when no bound is left; otherwise the text denotes the intended numerals if `Exact` holds of the bounds, and errs on an exhibited word if it does not. |
| IntegerBounds.BuildFromNegative | scrapers/llama.cpp/common/json-schema-to-grammar.cpp:199-208 | A negative minimum alone is exact: the negative numerals down to it, "-0", and the nonnegative ones of at most 16 digits. |
| IntegerBounds.BuildAtMost | scrapers/llama.cpp/common/json-schema-to-grammar.cpp:252-259 | A nonnegative maximum alone is exact. |
| IntegerBounds.InIntended | scrapers/llama.cpp/common/json-schema-to-grammar.cpp:86-268 | A word is intended exactly if it is a numeral whose value respects the bounds, or the "-0" that comes along. |
| IntegerBounds.NumeralRoundTrip | scrapers/llama.cpp/common/json-schema-to-grammar.cpp:86-268 | The text of an integer is a numeral and has that integer as its value. |
| Repetition.RepetitionIsLists | scrapers/llama.cpp/common/json-schema-to-grammar.cpp:19-41 | The text denotes exactly the lists of between the minimum and the maximum number of items, with the separator between them; with a minimum above the maximum, the lists of exactly the minimum. |
| Repetition.RepetitionReadable | scrapers/llama.cpp/common/json-schema-to-grammar.cpp:19-41 | The text is readable as a grammar if and only if the maximum is not negative and, with a separator, not 0. |
| NotStrings.BuildTrie | scrapers/llama.cpp/common/json-schema-to-grammar.cpp:636-656 | Inserting all names yields the trie of the names. |
| NotStrings.TrieHoldsNames | scrapers/llama.cpp/common/json-schema-to-grammar.cpp:636-656 | A word can be walked in the trie exactly if it is a prefix of some name, and ends there exactly if it is a name. |
| NotStrings.VisitTrie | scrapers/llama.cpp/common/json-schema-to-grammar.cpp:661-684 | For any trie: the text written for a node denotes exactly the words that its classes, read from left to right, let through. |
| NotStrings.LeavesIsOffTrie | scrapers/llama.cpp/common/json-schema-to-grammar.cpp:661-684 | Words that leave the trie are exactly the words, spelled in characters, that cannot be walked in it. |
| NotStrings.NotStrings | scrapers/llama.cpp/common/json-schema-to-grammar.cpp:625-684 | For any names: what the quoted rule denotes; and if the trie fits character classes, that is the words other than the names. |
| NotStrings.NamesRightIffFits | scrapers/llama.cpp/common/json-schema-to-grammar.cpp:625-684 | For names of characters that stand for themselves, one of them not empty: all classes fit if and only if the rule's language, on nonempty words, is that of the words that are no prefix of a name and not one. |
| NotStrings.FitsIffNamesFit | scrapers/llama.cpp/common/json-schema-to-grammar.cpp:661-684 | The trie fits if and only if the names do: no special characters, and each hyphen last in its place or between comma and full stop. |
| NotStrings.ReadsRightIffFits | scrapers/llama.cpp/common/json-schema-to-grammar.cpp:661-684 | The grammar reader, going through the bytes of the class texts, reads every class as meant if and only if the trie fits. |
| NotStrings.NamesReadIffFit | scrapers/llama.cpp/common/json-schema-to-grammar.cpp:625-684 | The same of the trie of any byte strings, said of the names. |
| NotStrings.OtherNamesAreOthers | scrapers/llama.cpp/common/json-schema-to-grammar.cpp:625-684 | If some name is nonempty, a plain word passes exactly if it is no prefix of a name, or is empty and the empty name is not forbidden, and no name ever passes; if all names are empty, only the empty word passes, wrongly. |
| NotStrings.HyphenMakesRange | scrapers/llama.cpp/common/json-schema-to-grammar.cpp:661-684 | The names "-" and "a" do not fit; the name "content-type" does. |
| NotStrings.AccentIsSplit | scrapers/llama.cpp/common/json-schema-to-grammar.cpp:636-684 | An accented letter is two bytes, which become two nodes whose classes are not read as those bytes. |
| ClassText.NodeReadsIffPlain | scrapers/llama.cpp/src/llama-grammar.cpp:414-447 | The reader takes a node's classes as meant if and only if its keys, in order, are plain and a hyphen among them is last or between comma and full stop. |
| ClassText.AloneIffPlain | scrapers/llama.cpp/src/llama-grammar.cpp:414-447 | A class of one byte is read as that byte, whatever follows, if and only if it is plain and no caret. |
| Regex.TokensDenoteRegex | scrapers/llama.cpp/common/json-schema-to-grammar.cpp:441-612 | The flat sequence of tokens the reader goes through means what the expression means. |
| Pattern.ReadBrackets | scrapers/llama.cpp/common/json-schema-to-grammar.cpp:506-524 | Reading stops at the closing bracket with the class text between. |
| Pattern.ReadCounts | scrapers/llama.cpp/common/json-schema-to-grammar.cpp:530-562 | The numbers read from braces are the least and the greatest count of the quantifier. |
| Pattern.ReadLiteral | scrapers/llama.cpp/common/json-schema-to-grammar.cpp:579-609 | The lookahead takes the nonempty run that `LiteralRun` takes, and leaves a quantified character to stand alone. |
| PatternBytes.CarriesIffAscii | scrapers/llama.cpp/common/json-schema-to-grammar.cpp:579-609 | The quantifier after a character applies to the whole character if and only if it is ASCII: otherwise the run ends between its bytes. |
| Pattern.StandsStill | scrapers/llama.cpp/common/json-schema-to-grammar.cpp:579-609 | The scan makes no progress at a character exactly if that is a closing bracket or brace. |
| Pattern.JoinSeq | scrapers/llama.cpp/common/json-schema-to-grammar.cpp:456-486 | Merging adjacent literals preserves what the sequence denotes. |
| Pattern.Transform | scrapers/llama.cpp/common/json-schema-to-grammar.cpp:441-613 | The cursor loop terminates, consumes one expression and its closing parenthesis without error, and the body denotes what the expression matches. |
| Pattern.VisitPattern | scrapers/llama.cpp/common/json-schema-to-grammar.cpp:424-615 | The rule added for an anchored expression, its quantified characters being ASCII, denotes the strings it matches between quotes, and space; it gets its own name if that is free and not like `dot`, and other new rules are called `dot` or the name with a number. |
| ObjectKeys.OneDerivation | scrapers/llama.cpp/common/json-schema-to-grammar.cpp:746-784 | With distinct optional names the alternatives count every selection of keys once and nothing else. |
| ObjectKeys.OneRestDerivation | scrapers/llama.cpp/common/json-schema-to-grammar.cpp:752-774 | The same for the keys of a `-rest` rule. |
| ObjectCounts.RefsAreCounted | scrapers/llama.cpp/common/json-schema-to-grammar.cpp:752-774 | The text `get_recursive_refs` returns derives each sequence of entries as often as is counted for its keys, in every later table. |
| ObjectCounts.MembersAreCounted | scrapers/llama.cpp/common/json-schema-to-grammar.cpp:738-784 | The text between the braces derives each sequence of entries of the object in exactly one way, and no other in any. |
| ObjectKeys.RestIsSelections | scrapers/llama.cpp/common/json-schema-to-grammar.cpp:752-774 | A `-rest` rule denotes exactly the entries of an ordered selection of its keys, each after a comma. |
| ObjectKeys.OptionalMembers | scrapers/llama.cpp/common/json-schema-to-grammar.cpp:746-784 | Without required keys, an optional choice among the alternatives is exactly the members of the object. |
| ObjectKeys.RequiredMembers | scrapers/llama.cpp/common/json-schema-to-grammar.cpp:738-784 | With required keys, these in order and an optional comma with a choice are exactly the members. |
| ObjectRule.RequiredText | scrapers/llama.cpp/common/json-schema-to-grammar.cpp:738-745 | The required entries are written in order, with a comma and white space between neighbours. |
| ObjectRule.GetRecursiveRefs | scrapers/llama.cpp/common/json-schema-to-grammar.cpp:752-774 | The recursion adds `-rest` rules only, changes no stored rule, and returns the sequence that starts, or continues, with the first key; it derives key sequences as often as counted. |
| ObjectRule.Alternatives | scrapers/llama.cpp/common/json-schema-to-grammar.cpp:776-781 | The alternatives written derive every sequence of keys as often as counted for all the places to start at, and denote their union. |
| ObjectRule.ObjectText | scrapers/llama.cpp/common/json-schema-to-grammar.cpp:737-788 | The object rule denotes a brace, all required entries in order, then any ordered subset of the optional ones, then any number of additional ones, with one comma and white space between neighbours and nowhere else, and a brace; entries with rules of their own being told apart, it derives each such sequence in one way and no other in any. |
| Rules.RuleTable.AddRule | scrapers/llama.cpp/common/json-schema-to-grammar.cpp:400-414 | The numeric search terminates; the table is the old one with the rule under the key returned, which is the escaped name or that with a number; nothing stored changes; built-in names keep their rules if and only if `KeepsBuiltins` holds. |
| Rules.RuleTable.AddPrimitive | scrapers/llama.cpp/common/json-schema-to-grammar.cpp:790-807 | Under whatever name: the built-in rule and all it needs are in the table afterwards, cyclic needs included, and nothing else is added; built-in names hold the built-in rules if they did and the name is not another's. |
| Rules.EscapeAppend | scrapers/llama.cpp/common/json-schema-to-grammar.cpp:401 | Escaping works piece by piece where a piece starts with a character of rule names. |
| Rules.EscapedHyphens | scrapers/llama.cpp/common/json-schema-to-grammar.cpp:401 | Escaping keeps hyphens, and a name whose escape has none was a rule name already. |
| Rules.RunIsOneHyphen | scrapers/llama.cpp/common/json-schema-to-grammar.cpp:401 | A run of characters that no rule name can hold becomes one hyphen, however long it is. |
| BuiltinRules.BuiltinsAreGood | scrapers/llama.cpp/common/json-schema-to-grammar.cpp:277-299 | The built-in rules need only built-in rules, and no name the converter makes up is theirs. |
| BuiltinTexts.SpaceText | scrapers/llama.cpp/common/json-schema-to-grammar.cpp:270 | White space is nothing, a space, or a new line and up to twenty spaces and tabs. |
| BuiltinTexts.CharIsJson | scrapers/llama.cpp/common/json-schema-to-grammar.cpp:287 | The rule `char` is exactly one character of a JSON string, plain or escaped (section 7 of RFC 8259), but for DEL and the escaped slash. |
| BuiltinTexts.BooleanText | scrapers/llama.cpp/common/json-schema-to-grammar.cpp:278 | The rule `boolean` is "true" or "false", and white space. |
| BuiltinTexts.IntegralText | scrapers/llama.cpp/common/json-schema-to-grammar.cpp:280 | The rule `integral-part` is one to sixteen digits without a leading zero. |
| BuiltinTexts.NumberText | scrapers/llama.cpp/common/json-schema-to-grammar.cpp:281 | The rule `number` is an optional minus sign, an integral part, an optional fraction and an optional exponent, and white space. |
| BuiltinTexts.StringText | scrapers/llama.cpp/common/json-schema-to-grammar.cpp:288 | The rule `string` is a quote, characters and escapes of JSON, a quote, and white space. |
| BuiltinTexts.UuidText | scrapers/llama.cpp/common/json-schema-to-grammar.cpp:286 | The rule `uuid` is 36 hexadecimal digits and hyphens in their places, in quotes. |
| BuiltinTexts.DateText | scrapers/llama.cpp/common/json-schema-to-grammar.cpp:293 | The rule `date` is four digits, a month from 01 to 12 and a day from 01 to 31. |
| BuiltinTexts.TimeText | scrapers/llama.cpp/common/json-schema-to-grammar.cpp:294 | The rule `time` is hours below 24, minutes and seconds below 60, perhaps three digits of a fraction, and Z or an offset (section 5.6 of RFC 3339). |
| JsonValues.KnotIsJson | scrapers/llama.cpp/common/json-schema-to-grammar.cpp:283-285 | Whatever three languages satisfy the equations of `value`, `array` and `object` are those of the texts of JSON values, arrays and objects, as defined on trees: there is no other solution. |
| BuiltinMeaning.BuiltinIsRight | scrapers/llama.cpp/common/json-schema-to-grammar.cpp:277-299 | For all 18 built-in rules, the `-string` forms among them: in every solution of a table that holds the built-in rules and what this one needs, it denotes the texts it is named after. |
| BuiltinRules.EscapedNameIsBuiltin | scrapers/llama.cpp/common/json-schema-to-grammar.cpp:301-309 | The rule of a schema goes for a built-in name if and only if the schema's name is no rule name and is escaped to one. |
| BuiltinRules.AddSchemaRule | scrapers/llama.cpp/common/json-schema-to-grammar.cpp:400-414 | For every table, name and rule: adding the rule of a schema leaves the built-in rules as they are exactly unless its name is so escaped, the rule is another, and the built-in one is not there yet. |
| BuiltinRules.AddDecimalPart | scrapers/llama.cpp/common/json-schema-to-grammar.cpp:400-414 | The rule of a property `decimal_part` takes the place of the built-in rule unless that is there. |
| ConverterState.Finish | scrapers/llama.cpp/common/json-schema-to-grammar.cpp:883-929 | A rule added after everything it needs makes its name denote the schema in every solution of every later table, without touching what the references denote. |
| ConverterState.EndResolve | scrapers/llama.cpp/common/json-schema-to-grammar.cpp:686-695 | Once a reference's schema is visited, the name returned denotes it, and the references done before still denote theirs. |
| ConverterState.StaysFree | scrapers/llama.cpp/common/json-schema-to-grammar.cpp:686-695 | Nothing visited on the way takes the name a schema is to get. |
| ConverterState.MetAgain | scrapers/llama.cpp/common/json-schema-to-grammar.cpp:686-695 | A reference met again, done or being resolved, denotes by its name what its rule denotes. |
| ObjectParts.ObjectMeans | scrapers/llama.cpp/common/json-schema-to-grammar.cpp:697-788 | When every entry has its rule, the object rule denotes what the schema says of the object. |
| ObjectParts.ShapedApart | scrapers/llama.cpp/common/json-schema-to-grammar.cpp:715-735 | Entry rules are told apart by how their texts begin, so that no two keys share one. |
| Constants.EntryRightIff | scrapers/llama.cpp/common/json-schema-to-grammar.cpp:686-695 | In an object of constants and references to constants, the entry of a property denotes the property's own schema if and only if the reference's name was free or stood for the same constant. |
| Constants.PropertyVisited | scrapers/llama.cpp/common/json-schema-to-grammar.cpp:883-889 | What visiting such a property does to the names: which constant each stands for afterwards. |
| Captures.OtherSchemaFound | scrapers/llama.cpp/common/json-schema-to-grammar.cpp:686-695 | A reference to a definition with the name of an earlier property denotes that property's constant and not the definition's. |
| Captures.NotCaptured | scrapers/llama.cpp/common/json-schema-to-grammar.cpp:686-695 | A property and the one definition it refers to keep clear of each other, whatever characters the name holds, if they are called alike or neither's rules can get a name of the other. |
| Captures.Converts | scrapers/llama.cpp/common/json-schema-to-grammar.cpp:1038-1045 | Then the object and the definition meet the conditions of a faithful conversion. |
| Captures.Underscored | scrapers/llama.cpp/common/json-schema-to-grammar.cpp:686-695 | So does a definition whose name is escaped, and whose rule is therefore not found by it. |
| Converter.SchemaConverter.VisitInteger | scrapers/llama.cpp/common/json-schema-to-grammar.cpp:990-1007 | It throws exactly if no bound is left; otherwise the rule stored is a group, and white space, whose text denotes the intended numerals, or for bounds that are not got right errs on some word. |
| Converter.SchemaConverter.UnionRule | scrapers/llama.cpp/common/json-schema-to-grammar.cpp:416-422 | It terminates and only adds rules, whatever the schema; from a state that is `Underway` the alternatives denote the union of what the visited schemas describe, in every solution of the table as it has become. |
| Converter.SchemaConverter.ResolveRef | scrapers/llama.cpp/common/json-schema-to-grammar.cpp:686-695 | Whatever the table: a name that is there, or a reference being resolved, is returned with the table as it was; references being resolved are the same afterwards; from a state that is `Underway` the name denotes what the reference stands for. |
| Converter.SchemaConverter.PropertyRules | scrapers/llama.cpp/common/json-schema-to-grammar.cpp:707-722 | Every property gets an entry rule whose text begins with its key, and the keys are sorted into required and optional in their order; from a state that is `Underway` each entry rule denotes its property; at the root, constants come to what `Constants` says. |
| Converter.SchemaConverter.AdditionalKeyRule | scrapers/llama.cpp/common/json-schema-to-grammar.cpp:729-731 | It only adds rules; from a state that is `Underway` the key of an additional entry is any string, or any string other than the declared keys. |
| Converter.SchemaConverter.VisitObject | scrapers/llama.cpp/common/json-schema-to-grammar.cpp:697-788 | For every object schema with distinct keys the rule stored derives each permitted sequence of entries in one way and no other in any; from a state that is `Ready` the name returned denotes exactly what the schema describes. |
| Converter.SchemaConverter.Visit | scrapers/llama.cpp/common/json-schema-to-grammar.cpp:883-1022 | For every schema and every reference table, cyclic ones included, `visit` terminates by the references not being resolved and the size of the schema, only adds rules, and throws or records an error only where a bound is missing or a type unknown; from a state that is `Ready`, in every solution the name returned denotes what the schema describes, and every reference done denotes its schema. |
| Conversion.Convert | scrapers/llama.cpp/common/json-schema-to-grammar.cpp:1038-1045 | Run with the built-in rules, it always ends. If no rule takes a name claimed for another schema and all schemas are well formed, every solution of the finished rules, the least one included, gives white space what it should be, the root what the schema describes and every reference needed what its schema describes, the built-in rules intact and complete, the root object unambiguous. For a schema without references whose constants and patterns are JSON, the root lets exactly the texts of the JSON values through that satisfy the schema. For objects of constants, with no such condition: what the root denotes, and for each reference that it denotes its schema exactly if the name it goes by was free or stood for the same. |
| Conversion.RootIsValues | scrapers/llama.cpp/common/json-schema-to-grammar.cpp:1038-1045 | With references: in every solution in which they denote the texts of some values, the root lets exactly the texts of the values through that satisfy the schema with those. |
| SchemaValues.SpecIsValues | scrapers/llama.cpp/common/json-schema-to-grammar.cpp:883-1022 | The texts a schema describes are exactly those of the JSON values that satisfy it: items in number and kind, required members and a choice of the others in order, strings of the length, numbers within the bounds, values of the type. |
| SchemaValues.KeysAreStringsIff | scrapers/llama.cpp/common/json-schema-to-grammar.cpp:661-684 | The keys of additional entries are JSON strings if and only if no declared key has a character; otherwise a lone backslash in quotes is among them. |
| SchemaValues.OpenDot | scrapers/llama.cpp/common/json-schema-to-grammar.cpp:487-491 | The pattern of one dot lets a quote through, which may not stand inside a string. |
| Conversion.GoodIsSensible | scrapers/llama.cpp/common/json-schema-to-grammar.cpp:883-1022 | A conversion that meets the conditions neither throws nor records an error. |
| LogQueue.CommonLog.constructor | scrapers/llama.cpp/common/log.cpp:121-141 | A new log is running with an empty queue. |
| LogQueue.CommonLog.AddEntry | scrapers/llama.cpp/common/log.cpp:169-244 | A running log has the message after the pending entries, in a ring twice the size if the ring would fill up and in the same ring otherwise; a paused log is as it was. |
| LogQueue.CommonLog.Expand | scrapers/llama.cpp/common/log.cpp:220-241 | The loop moves all entries of a full ring, from the head round, to the front of a ring twice the size. |
| LogQueue.CommonLog.TakeEntry | scrapers/llama.cpp/common/log.cpp:255-265 | Taking is one step of the protocol: the first pending entry, if there is one. |
| LogQueue.CommonLog.FinishEntry | scrapers/llama.cpp/common/log.cpp:266-274 | The worker prints what it took, or ends at the end marker. |
| LogQueue.CommonLog.BeginPause | scrapers/llama.cpp/common/log.cpp:279-298 | Pausing is one step of the protocol: an end marker after the pending entries, or, in a ring with one free slot, a ring that reads as empty. |
| LogQueue.CommonLog.ResumeLog | scrapers/llama.cpp/common/log.cpp:246-277 | A log that is not waiting for the end of its worker is running afterwards, with a new worker if it was paused. |
| LogQueue.EmptyIffMeet | scrapers/llama.cpp/common/log.cpp:219-221 | Head and tail meet exactly when nothing is pending. |
| LogQueue.FirstInFirstOut | scrapers/llama.cpp/common/log.cpp:169-301 | In every interleaving in which pauses find room: the printed messages, the one held and the pending ones grow by exactly the messages added between the start or a resumption and the next pause, in that order; and whether the log is running follows from the pauses, joins and resumptions. |
| LogQueue.LogIsFaithful | scrapers/llama.cpp/common/log.cpp:121-301 | From construction on, through any pauses and resumptions: printed and in flight are exactly the messages added while it was running, in order; a paused log has printed all of them; no stale end marker. |
| LogQueue.PauseDrains | scrapers/llama.cpp/common/log.cpp:246-301 | A pause with room returns only after exactly pending + 1 takes, with everything that was on its way printed and the ring empty, and until then something can always happen. |
| LogQueue.WorkShrinks | scrapers/llama.cpp/common/log.cpp:254-276 | Each step of the worker during a pause leaves it less to do, and nothing adds to it. |
| LogQueue.PauseReturnsIffRoom | scrapers/llama.cpp/common/log.cpp:279-301 | Some continuation lets the pause return if and only if fewer than capacity - 1 entries are pending; else none of them is ever printed. |
| Tensors.UnflattenWithin | scrapers/llama.cpp/convert_lora_to_gguf.py:129-153 | Positions in row-major order are the indices within a shape. |
| Lora.ReshapeDense | scrapers/llama.cpp/convert_lora_to_gguf.py:129-153 | Reshaping the factors, one dimension possibly left to be worked out, reshapes the product. |
| LoraSuccess.ReshapeIff | scrapers/llama.cpp/convert_lora_to_gguf.py:129-153 | With at most one dimension to be worked out, reshaping goes through if and only if some shape of that form has rows of the same size, and as many, no known dimension being 0 where one is to be worked out. |
| Lora.PermuteDense | scrapers/llama.cpp/convert_lora_to_gguf.py:161-172 | Permuting the factors, or swapping and transposing them, permutes the product, where it goes through. |
| LoraSuccess.PermuteIff | scrapers/llama.cpp/convert_lora_to_gguf.py:161-172 | For dimensions in range: permuting goes through if and only if they are a permutation and the last stays in place or the tensor is a matrix. |
| LoraSuccess.BeyondRange | scrapers/llama.cpp/convert_lora_to_gguf.py:161-172 | `permute(2, 1)` of a matrix is refused by torch and passes on the factors. |
| Lora.IndexDense | scrapers/llama.cpp/convert_lora_to_gguf.py:57-113 | Where the factors can be indexed, the result is the product indexed as torch does it if and only if the index holds no two lists and no list beside a number. |
| LoraSuccess.IndexIff | scrapers/llama.cpp/convert_lora_to_gguf.py:57-113 | Lists standing apart and the last two places holding no number, indexing goes through if and only if there are entries, no more than dimensions, and each is in bounds. |
| Lora.CornerForDiagonal | scrapers/llama.cpp/convert_lora_to_gguf.py:57-113 | Two lists: the factors give a corner of the matrix where torch gives its diagonal. |
| Lora.RowListsRefused | scrapers/llama.cpp/convert_lora_to_gguf.py:44-47 | Two lists before the last axes: the factors no longer fit each other and are refused. |
| LoraPrograms.CatDense | scrapers/llama.cpp/convert_lora_to_gguf.py:205-220 | Joining matrices with the same A joins the products. |
| LoraSuccess.CatIff | scrapers/llama.cpp/convert_lora_to_gguf.py:205-220 | Joining matrices goes through if and only if they have the same A. |
| LoraPrograms.ProgramOnFactors | scrapers/llama.cpp/convert_lora_to_gguf.py:39-222 | Whatever program of these operations the factors get through, with no index of two lists or a list and a number, the product gets through with the same outcome, and A keeps extent 1 in front. |
| LoraSuccess.ProgramPasses | scrapers/llama.cpp/convert_lora_to_gguf.py:39-222 | The factors get through a program if and only if every step can be taken, judged by the shapes the product has on the way and the arguments, and for a join by whether A is the same. |
| LoraPrograms.LlamaRows | scrapers/llama.cpp/convert_hf_to_gguf.py:1617-1622 | The shuffle puts row half·(2h + k) + j of a matrix at row 2(half·h + j) + k. |
| LoraPrograms.LlamaOnFactors | scrapers/llama.cpp/convert_hf_to_gguf.py:1617-1622 | The shuffle goes through on the factors and moves the rows of the product so. |
| LoraPrograms.FalconSorts | scrapers/llama.cpp/convert_hf_to_gguf.py:1383-1387 | Where each row of the fused attention weights goes: the queries of all heads first, then the keys, then the values, each in its order. |
| LoraPrograms.FalconOnFactors | scrapers/llama.cpp/convert_hf_to_gguf.py:1383-1387 | Sorting fused attention weights apart goes through on the factors, gives what it gives on the product, and moves its rows so. |
| Base64.Encode | scrapers/llama.cpp/common/base64.hpp:80-144 | The loop writes the bits of the bytes, zero-filled to groups of six, as letters with padding; its size is `required_encode_size`. |
| Base64.Base64Value | scrapers/llama.cpp/common/base64.hpp:344-389 | Which characters are taken under which alphabet, their values, and what the alphabet becomes. |
| Base64.SettledStep | scrapers/llama.cpp/common/base64.hpp:344-389 | With the alphabet carried along, a character is taken exactly if all so far fit one alphabet. |
| Base64.DecodeInto | scrapers/llama.cpp/common/base64.hpp:200-244 | Decoding into another buffer or in place succeeds exactly if the text is letters of one fitting alphabet followed by nothing but padding, or, loosely, if all before the first padding fits; the bytes are those its bits fill, the bits left over fewer than a byte; it stays within `max_decode_size` and changes nothing beyond the result. |
| Base64.DecodesIff | scrapers/llama.cpp/common/base64.hpp:200-244 | Which texts decode, canonical or not, and that the result carries their bits. |
| Base64.DecodeOfEncode | scrapers/llama.cpp/common/base64.hpp:80-244 | Decoding what was encoded, with its alphabet or with detection, gives back the bytes. |
| Base64.EncodeOfDecode | scrapers/llama.cpp/common/base64.hpp:80-244 | Encoding what a canonical text decodes to gives back the text (sections 3.2 and 3.5 of RFC 4648). |
| Base64.EncodedIsCanonical | scrapers/llama.cpp/common/base64.hpp:80-144 | Encoded texts are canonical. |
| Base64.AutoIsEither | scrapers/llama.cpp/common/base64.hpp:344-389 | Detection accepts exactly what one of the alphabets accepts, with the same bytes. |
| Experts.Spelled | scrapers/llama.cpp/convert_hf_to_gguf.py:1653 | The name of a matrix of an expert, spelled out. |
| Experts.ExpertCollector.ModifyTensors | scrapers/llama.cpp/convert_hf_to_gguf.py:1636-1667 | One call stores a tensor, and when a block has all its tensors yields the three stacks in expert order and deletes them; a missing name is an error. |
| Experts.AnyOrder | scrapers/llama.cpp/convert_hf_to_gguf.py:1636-1667 | For any order and interleaving of distinct tensors: complete blocks have been yielded once and hold nothing, others have yielded nothing and hold what came. |
| Experts.AllArrived | scrapers/llama.cpp/convert_hf_to_gguf.py:1636-1667 | When all has come, each block has one triple, every tensor at the place of its expert, and nothing is left. |
| Experts.OrderIsIrrelevant | scrapers/llama.cpp/convert_hf_to_gguf.py:1636-1667 | The same tensors in another order yield the same for every block. |
| Experts.FinalCheck | scrapers/llama.cpp/convert_hf_to_gguf.py:1700-1707 | The final check passes exactly if every block that received a tensor received all. |
| Bpe.FindBest | scrapers/llama.cpp/convert_hf_to_gguf.py:2167-2173 | The scan finds the first adjacent pair of least rank, if any pair is ranked. |
| Bpe.Split | scrapers/llama.cpp/convert_hf_to_gguf.py:2164-2178 | The loop ends with the parts of the greedy merging: they make up the token, are bytes or tokens of a rank below the limit, no two neighbours have a rank below it, and a token of several bytes whose rank is the limit or above stays divided. |
| Bpe.MergesOnce | scrapers/llama.cpp/convert_hf_to_gguf.py:2164-2178 | The outcome of greedy merging is unique. |
| Lcs.CommonLcs | scrapers/llama.cpp/common/common.cpp:1602-1649 | The two-row loop returns the length of some run common to both sequences, and no common run is longer. |
| Ggml.LowestFirst | scrapers/llama.cpp/convert_llama_ggml_to_gguf.py:112 | Numbers of four bytes have the lowest byte first. |
| Ggml.LoadTensor | scrapers/llama.cpp/convert_llama_ggml_to_gguf.py:110-131 | It succeeds exactly on headers, and says what they say and where the data lie: after the name, and in newer files at the next multiple of 32. |
| Ggml.GgmlModel.LoadTensors | scrapers/llama.cpp/convert_llama_ggml_to_gguf.py:189-200 | It ends, and loads exactly the files whose bytes are used up by records with byte counts that do not wrap round; the records follow one another, and each name goes with the last that bears it. |
| Ggml.OneReading | scrapers/llama.cpp/convert_llama_ggml_to_gguf.py:110-131 | There is only one way to read the records. |
| Ggml.Tiling | scrapers/llama.cpp/convert_llama_ggml_to_gguf.py:189-200 | Every byte from the first header to the end belongs to exactly one record. |
| Ggml.CountIsRightIff | scrapers/llama.cpp/convert_llama_ggml_to_gguf.py:126-127 | The byte count of a tensor is right if and only if elements times block bytes stay below 2 to the 63. |

## Left out

Schemas and grammars:

- Reading keywords off a JSON schema, and its errors: the model starts where `visit` has decided which kind of schema
  it has (exclusive bounds already turned into inclusive ones).
- `resolve_refs`: fetching and following references, and the errors it records; the model is given the table of
  references.
- `allOf`: its components are merged into properties before the object rule, and reference chains in it may recurse
  without end.
- Conversion.Convert: what the grammar means is stated for schemas that `SchemaSpec.Good` admits, because outside it the
  code goes wrong, as listed above: constants without backslashes, property names without quotes, backslashes or
  control characters, names that do not escape to built-in ones, exact integer bounds, minimums not above maximums, no
  list of at most 0 items, no empty `enum` or union (whose rules accept the empty text), with additional entries names
  that fit character classes; a property may not be called `*`. That it ends and only adds rules is stated for all.
- Conversion.Convert: for references to other schemas than constants, `SchemaSpec.NoCapture` is sufficient and not
  necessary: a captured name does no harm if the two schemas describe the same texts, which no inspection of their
  names decides. For constants, where it can be decided, the condition is exact.
- Conversion.Convert: a plain type that is referenced must not be a UUID of a numbered version.
- Conversion.Convert: the least solution of the grammar satisfies the equations of the schema; that it is also the
  least to do so is not stated. For schemas whose references are not recursive the two coincide.
- SchemaValues.SpecIsValues: leaves out constants with parts, which have one layout only, numbers of more than sixteen
  digits as constants, patterns that match what is no inside of a string, and additional entries beside declared ones
  (`SchemaValues.OpenDot`, `SchemaValues.KeysAreStringsIff`); references denote the texts of given values.
- SchemaValues.SpecIsValues: members come in the order of the schema; JSON Schema admits any.
- Converter.SchemaConverter.Visit: rule texts are kept as they read back if no literal holds a backslash and no name in
  a character class is beyond ASCII; what the table holds for others is not claimed to be what the reader makes of it.
- IntegerBounds.BuildMinMaxInt: leaves out a maximum of INT_MIN, whose negation is no `int`.
- Pattern.VisitPattern: leaves out backslash escapes, quotes and stray brackets in expressions, and quantifiers on
  quantifiers, where what the code does has no clean statement; expressions are those `Regex.Good` admits, as is the
  type of patterns in schemas.
- Pattern.ReadBrackets: class texts without backslash escapes. The same goes for `Pattern.Transform` and
  `Pattern.ReadLiteral`.
- Pattern.ReadCounts: braces that hold one or two numbers, the first not above the second; for others the code records
  errors.
- Repetition counts and class texts as the grammar reader expands them into rules; grammar text is modelled as a tree,
  its white space is not.
- The trie of names is built as a value, node by node, instead of through a pointer into it.

Tensors:

- Ellipsis, bare indices and slices outside a tuple, `stack`, and joining tensors of more than two dimensions: there A
  has an extent beyond its last two axes. A number in one of the last two places of an index is also left out, as the
  result is no matrix.
- LoraPrograms.ProgramOnFactors: says nothing of a shape with two dimensions to be worked out or of dimensions out of
  range (`LoraSuccess.BeyondRange`), which torch refuses and the factors may get past. The same goes for
  `LoraSuccess.ProgramPasses`.
- Rounding: entries are real numbers. Data types, quantised blocks and lazy evaluation.
- `torch.cat` is modelled for two tensors; for more it is nested.

The log, and the rest:

- Overlapping calls of `pause` and `resume` from several threads: assigning a thread that has not been joined ends the
  program. Formatting, timestamps and colours; what a slot says besides its message.
- Base64.DecodeInto: says nothing about what a failed decoding in place leaves behind. Shifts and masks are written as
  quotients and remainders.
- Experts: the map from stacked names to output names; tensors whose names are not those expected.
- Ggml.GgmlModel.LoadTensors: stops where a byte count has wrapped round; the code goes on from wherever that leads. The
  header, the hyperparameters and the vocabulary before the first record.
- `string_process_escapes`, `parse_cpu_mask`, and the web application around the vendored code: only easy members
  would come of them.
