# fabric core, modelled in Dafny

This project models five parts of the `backpackcloud/fabric` Java library and proves their properties.

- **Input values** (`InputValue`): an optional piece of text and its conversions. These are text, integer, long, boolean, enum constant, and comma-split pieces.
- **Configurations** (`Configuration`, `ConfigurationChain`, `RawValueConfiguration`). A configuration is a source that may or may not be set: an environment variable, a system property, a file, a class-path resource, a URL or a literal value. A chain asks each source in turn. The source it picks is the first one set at the moment the chain is built.
- **Reflection helpers.**
  - `Mirror` collects a class and its superclasses once. It then finds fields, methods and constructors, most-derived class first.
  - `ClassIterator` walks from a class to its superclasses.
  - `Context` resolves the argument for each constructor or method parameter. It uses an ordered list of conditional rules and a default. It also picks the constructor through which an object is created.
- **Preferences.**
  - `PreferenceType`: a named conversion from user input.
  - `Preference`: a value with its listeners.
  - `UserPreferences`: a registry with one preference per id.

The reading of a configuration depends on the outside world. The model makes that an explicit `Environment` value: environment variables, system properties, readable files and class-path resources, each a map from name to contents. A Java class is a `ClassId` into a `ClassTable`. Each class in the table knows its superclass and its declared fields, methods and constructors, and a superclass always has a smaller id than its subclasses. Listeners are opaque ids. What a listener receives is recorded in a ghost log of `Notification`s, in call order.

Modules, one per file: `Results` (results.dfy), `InputValues` (input_value.dfy), `Configurations` (configuration.dfy), `ConfigurationChains` (configuration_chain.dfy), `RawValueConfigurations` (raw_value_configuration.dfy), `ClassTables` (class_table.dfy), `Mirrors` (mirror.dfy), `ClassIterators` (class_iterator.dfy), `Contexts` (context.dfy), `PreferenceTypes` (preference_type.dfy), `Preferences` (preference.dfy), `UserPreferencesRegistry` (user_preferences.dfy).

A chain's choice is made when the chain is built: `ConfigurationChain` calls `or(...)` at each chaining step (src/main/java/com/backpackcloud/configuration/ConfigurationChain.java:75-77 and 107-125), and only the chosen source is asked again later. `ConfigurationChains.ChoiceIsMadeWhenBuilt` shows that a chain built while its property was undefined keeps reading the fallback value after the property is defined.

## Model

| member | source | states |
|---|---|---|
| InputValues.Of | src/main/java/com/backpackcloud/text/InputValue.java:182-184 | `of(s)` holds exactly `s` |
| InputValues.AsText | src/main/java/com/backpackcloud/text/InputValue.java:59-62 | empty exactly when the value is `null` or the empty string; otherwise the text itself |
| InputValues.Map | src/main/java/com/backpackcloud/text/InputValue.java:65-67 | the mapper is applied exactly when `asText()` is present, to that text |
| InputValues.ParseDecimal | src/main/java/com/backpackcloud/text/InputValue.java:75-95 | `parseInt`/`parseLong`: a value exactly when the text is an optional sign followed by one or more digits denoting a number in the type's range, and then that number |
| InputValues.NaturalTextValue | src/main/java/com/backpackcloud/text/InputValue.java:75-81 | the decimal digits written for `n` read back as `n` |
| InputValues.ParseDecimalText | src/main/java/com/backpackcloud/text/InputValue.java:75-95 | every in-range integer, written in decimal, parses back to itself |
| InputValues.AsInteger | src/main/java/com/backpackcloud/text/InputValue.java:75-81 | a value exactly when the text is a well-formed decimal within the 32-bit range, and then the number it denotes; absent, empty or non-numeric text gives none |
| InputValues.AsLong | src/main/java/com/backpackcloud/text/InputValue.java:89-95 | a value exactly when the text is a well-formed decimal within the 64-bit range, and then the number it denotes; absent, empty or non-numeric text gives none |
| InputValues.AsIntegerExamples | src/test/java/com/backpackcloud/text/InputValueTest.java:64-80 | "1" reads 1 and "a" and "" read nothing, as the test expects; "+7", "007", "-0" and "-12" read their values; "1a" and "-" read nothing |
| InputValues.AsIntegerOfDecimalText | src/main/java/com/backpackcloud/text/InputValue.java:75-95 | the round trip: `of(String.valueOf(n)).asInteger()` and `.asLong()` are `n` for every 32-bit `n` |
| InputValues.AsLongOfDecimalText | src/main/java/com/backpackcloud/text/InputValue.java:89-95 | the round trip of `asLong()` for every 64-bit `n` |
| InputValues.IntegerOverflowIsEmpty | src/main/java/com/backpackcloud/text/InputValue.java:75-95 | 2147483648 overflows `asInteger()`, which gives empty instead of throwing; `asLong()` still reads it |
| InputValues.AsBoolean | src/main/java/com/backpackcloud/text/InputValue.java:117-119 | present exactly when the text is; true exactly for "true" in any case |
| InputValues.AsBooleanExamples | src/test/java/com/backpackcloud/text/InputValueTest.java:121-133 | "true" and "TrUe" are true; "false" and "yes" are false; absent and empty inputs give empty |
| InputValues.EnumName | src/main/java/com/backpackcloud/text/InputValue.java:150-158 | each character upper-cased, and `-`, space and `.` replaced by `_`, position by position; no lower-case letter or separator is left |
| InputValues.EnumNameIdempotent | src/main/java/com/backpackcloud/text/InputValue.java:150-158 | normalising a normalised name changes nothing |
| InputValues.IndexOf | src/main/java/com/backpackcloud/text/InputValue.java:150-158 | `Enum.valueOf`: the first constant with exactly that name, or none when no constant has it |
| InputValues.AsEnum | src/main/java/com/backpackcloud/text/InputValue.java:150-158 | the constant named by the normalised text; empty exactly when the text is absent or names no constant |
| InputValues.AsEnumOfLowerCase | src/test/java/com/backpackcloud/text/InputValueTest.java:155-166 | a constant written in lower case converts back to that constant |
| InputValues.Fields | src/main/java/com/backpackcloud/text/InputValue.java:164-166 | the pieces between commas, none holding a comma, joined back with commas giving the text |
| InputValues.TrimLeading | src/main/java/com/backpackcloud/text/InputValue.java:164-166 | removes the longest whitespace run at the start: what goes is all whitespace, and what is left does not begin with whitespace |
| InputValues.TrimTrailing | src/main/java/com/backpackcloud/text/InputValue.java:164-166 | removes the longest whitespace run at the end: what goes is all whitespace, and what is left does not end with whitespace |
| InputValues.TrimField | src/main/java/com/backpackcloud/text/InputValue.java:164-166 | the field is cut to a stretch with only whitespace around it, which does not begin with whitespace when a comma comes before the field and does not end with whitespace when one comes after it; the first field keeps its leading whitespace and the last its trailing whitespace |
| InputValues.TrimAtCommas | src/main/java/com/backpackcloud/text/InputValue.java:164-166 | one piece per field, in the fields' order, each trimmed as for `TrimField` |
| InputValues.DropTrailingEmpty | src/main/java/com/backpackcloud/text/InputValue.java:164-166 | `String.split` drops the empty pieces at the end, and only those |
| InputValues.CommaSplit | src/main/java/com/backpackcloud/text/InputValue.java:164-166 | a text without a comma is its own single piece; no piece holds a comma |
| InputValues.SplitWith | src/main/java/com/backpackcloud/text/InputValue.java:172-175 | one input value per piece the function returns, in order; the function's exception propagates |
| InputValues.Split | src/main/java/com/backpackcloud/text/InputValue.java:164-166 | fails exactly on a `null` value; otherwise one input value per comma-split piece |
| InputValues.FieldsWithoutComma | src/main/java/com/backpackcloud/text/InputValue.java:164-166 | a text without a comma is a single field |
| InputValues.FieldsAppend | src/main/java/com/backpackcloud/text/InputValue.java:164-166 | a comma splits off the first field |
| InputValues.FieldsOfJoin | src/main/java/com/backpackcloud/text/InputValue.java:164-166 | the fields of a ", "-joined list are its items, with the leading spaces still there |
| InputValues.TrimAtCommasOfJoined | src/main/java/com/backpackcloud/text/InputValue.java:164-166 | trimming those fields gives back the items |
| InputValues.JoinHasComma | src/main/java/com/backpackcloud/text/InputValue.java:164-166 | joining two or more items puts a comma in the text |
| InputValues.CommaSplitJoin | src/main/java/com/backpackcloud/text/InputValue.java:164-166 | the round trip: splitting items joined with ", " gives back the items, for non-empty trimmed items without commas |
| InputValues.TrimLeadingPast | src/main/java/com/backpackcloud/text/InputValue.java:164-166 | whitespace in front of a text that does not begin with whitespace is exactly what is trimmed |
| InputValues.TrimTrailingBefore | src/main/java/com/backpackcloud/text/InputValue.java:164-166 | whitespace after a text that does not end with whitespace is exactly what is trimmed |
| InputValues.TrimFieldPadded | src/main/java/com/backpackcloud/text/InputValue.java:164-166 | a piece padded with whitespace next to its commas trims back to the piece, even an empty one |
| InputValues.FieldsOfSeparated | src/main/java/com/backpackcloud/text/InputValue.java:164-166 | the fields of pieces separated by commas with whitespace around them are the pieces with that whitespace still attached |
| InputValues.CommaSplitSeparated | src/main/java/com/backpackcloud/text/InputValue.java:164-166 | for two or more comma-free pieces, with any whitespace runs on either side of each comma between them, the split gives back the pieces without the empty ones at the end; a piece never begins with whitespace after a comma or ends with whitespace before one |
| InputValues.CommaSplitMixedSpace | src/main/java/com/backpackcloud/text/InputValue.java:164-166 | "a ,\tb" splits into "a" and "b" |
| InputValues.CommaSplitLeadingComma | src/main/java/com/backpackcloud/text/InputValue.java:164-166 | ",a" splits into "" and "a" |
| InputValues.CommaSplitDoubleComma | src/main/java/com/backpackcloud/text/InputValue.java:164-166 | "a,,b" splits into "a", "" and "b" |
| InputValues.CommaSplitTrailingComma | src/main/java/com/backpackcloud/text/InputValue.java:164-166 | "a," splits into "a" alone |
| InputValues.SplitFivePieces | src/test/java/com/backpackcloud/text/InputValueTest.java:169-179 | "a, b, c, d, e" splits into its five letters |
| InputValues.EmptyConversions | src/main/java/com/backpackcloud/text/InputValue.java:195 | `EMPTY` converts to nothing, and `split()` on it throws a NullPointerException |
| Configurations.Unwrap | src/main/java/com/backpackcloud/configuration/ConfigurationChain.java:55-62 | a chain answers `isSet` and `get` exactly as the source it wraps, in every environment |
| Configurations.Or | src/main/java/com/backpackcloud/configuration/Configuration.java:99-101 | the receiver when it is set, the default otherwise; set when either is; reads as the one chosen |
| Configurations.OrIdempotent | src/main/java/com/backpackcloud/configuration/Configuration.java:99-101 | falling back to the same default twice is the same as once |
| Configurations.IfSet | src/main/java/com/backpackcloud/configuration/Configuration.java:57-62 | returns the receiver; the action runs once, with the receiver, exactly when it is set |
| Configurations.NotSuppliedConfiguration | src/main/java/com/backpackcloud/configuration/Configuration.java:45 | never set, reads as ""; `or(d)` is always `d` |
| Configurations.Env | src/main/java/com/backpackcloud/configuration/Configuration.java:114-116 | set exactly while the variable is defined; reads its current value |
| Configurations.Property | src/main/java/com/backpackcloud/configuration/Configuration.java:142-144 | set exactly while the property is defined; reads its current value |
| Configurations.PropertyIsReadOnEveryCall | src/test/java/com/backpackcloud/ConfigurationTest.java:82-90 | a property source is unset before the property is defined, and set with the new value after |
| Configurations.File | src/main/java/com/backpackcloud/configuration/Configuration.java:123-125 | set exactly while the file is readable; reads its contents |
| Configurations.Resource | src/main/java/com/backpackcloud/configuration/Configuration.java:132-134 | set exactly while the resource is found; reads its contents, or nothing |
| Configurations.Url | src/main/java/com/backpackcloud/configuration/Configuration.java:151-153 | fails exactly when the location is not a well-formed URL; otherwise always set, reading the URL's external form |
| Configurations.Value | src/main/java/com/backpackcloud/configuration/Configuration.java:160-162 | always set, even for ""; reads the value; `or(d)` keeps it |
| ConfigurationChains.ChainDelegates | src/main/java/com/backpackcloud/configuration/ConfigurationChain.java:55-77 | `isSet`, `get` and `or` of a chain are those of the configuration it wraps |
| ConfigurationChains.Start | src/main/java/com/backpackcloud/configuration/Configuration.java:104-106 | an empty chain wraps `NOT_SUPPLIED`: never set, reads "" |
| ConfigurationChains.Then | src/main/java/com/backpackcloud/configuration/ConfigurationChain.java:75-77 | a step keeps the chain if it is set now, takes the new source otherwise, and answers as that one later |
| ConfigurationChains.Env | src/main/java/com/backpackcloud/configuration/ConfigurationChain.java:83-85 | keeps the chain when it is set, else takes `env(name)`; set exactly when either is |
| ConfigurationChains.File | src/main/java/com/backpackcloud/configuration/ConfigurationChain.java:91-93 | keeps the chain when it is set, else takes `file(location)`; set exactly when either is |
| ConfigurationChains.Resource | src/main/java/com/backpackcloud/configuration/ConfigurationChain.java:99-101 | keeps the chain when it is set, else takes `resource(location)`; set exactly when either is |
| ConfigurationChains.Property | src/main/java/com/backpackcloud/configuration/ConfigurationChain.java:107-109 | keeps the chain when it is set, else takes `property(name)`; set exactly when either is |
| ConfigurationChains.Url | src/main/java/com/backpackcloud/configuration/ConfigurationChain.java:115-117 | fails exactly when the location is malformed, even when the chain is set; otherwise keeps a set chain, else takes the URL source; always set |
| ConfigurationChains.MalformedUrlBreaksSetChain | src/main/java/com/backpackcloud/configuration/ConfigurationChain.java:115-117 | a malformed location throws even after a `value(v)` step that set the chain |
| ConfigurationChains.Value | src/main/java/com/backpackcloud/configuration/ConfigurationChain.java:123-125 | keeps the chain when it is set, else takes `value(v)`; always set, and then reads `v` in every environment |
| ConfigurationChains.FirstSet | src/main/java/com/backpackcloud/configuration/ConfigurationChain.java:75-125 | the position of the first set source, or none exactly when no source is set |
| ConfigurationChains.FirstSetWins | src/main/java/com/backpackcloud/configuration/ConfigurationChain.java:75-125 | a built chain answers as the first source set at build time, or as the last source when none is; it is set exactly when some source is |
| ConfigurationChains.ChainEndingInValue | src/test/java/com/backpackcloud/ConfigurationTest.java:54-61 | a chain ending in `value(v)` is set; when nothing before it is set, it reads `v` for good |
| ConfigurationChains.ChoiceIsMadeWhenBuilt | src/main/java/com/backpackcloud/configuration/ConfigurationChain.java:107-125 | a chain built while its property was undefined keeps reading the default after the property is defined |
| RawValueConfigurations.Read | src/main/java/com/backpackcloud/configuration/RawValueConfiguration.java:43-55 | always set, and `get()` and `read()` both give the raw value |
| RawValueConfigurations.LineEnd | src/main/java/com/backpackcloud/configuration/RawValueConfiguration.java:58-65 | the first line ends at the first line terminator, or at the end of the text |
| RawValueConfigurations.LineEndUnique | src/main/java/com/backpackcloud/configuration/RawValueConfiguration.java:58-65 | any position with no terminator before it and a terminator (or the end) at it is that line end |
| RawValueConfigurations.NextStart | src/main/java/com/backpackcloud/configuration/RawValueConfiguration.java:58-65 | the next line starts two characters on after "\r\n", one character on after any other terminator, and nowhere further at the end of the text |
| RawValueConfigurations.Lines | src/main/java/com/backpackcloud/configuration/RawValueConfiguration.java:58-65 | the lines a `Scanner` returns hold no terminator, and there are none exactly for the empty text |
| RawValueConfigurations.NextLine | src/main/java/com/backpackcloud/configuration/RawValueConfiguration.java:61-63 | one `nextLine()` returns the first line and moves past its terminator |
| RawValueConfigurations.ReadLines | src/main/java/com/backpackcloud/configuration/RawValueConfiguration.java:58-65 | the loop collects exactly the lines of the raw value |
| RawValueConfigurations.FirstLine | src/main/java/com/backpackcloud/configuration/RawValueConfiguration.java:61-63 | the lines from a position are the first line, then the lines after its terminator |
| RawValueConfigurations.LinesOfUnlines | src/main/java/com/backpackcloud/configuration/RawValueConfiguration.java:58-65 | the round trip: lines without terminators, joined with "\n" and ended with one, read back as the same lines |
| RawValueConfigurations.LinesExamples | src/main/java/com/backpackcloud/configuration/RawValueConfiguration.java:58-65 | a text without a terminator is one line; "a\r\nb" is two lines |
| RawValueConfigurations.LinesNewlineThenReturn | src/main/java/com/backpackcloud/configuration/RawValueConfiguration.java:58-65 | "a\n\rb" is three lines, the middle one empty: "\n\r" is two terminators |
| ClassTables.Walk | src/main/java/com/backpackcloud/reflection/Mirror.java:53-59 | the class, then each superclass in turn, up to the class that has none |
| ClassTables.WalkDescends | src/main/java/com/backpackcloud/reflection/Mirror.java:53-59 | the walk ends: ids strictly fall along it, so it holds at most `c + 1` classes |
| ClassTables.WalkUnique | src/main/java/com/backpackcloud/reflection/ClassIterator.java:57-64 | any list that starts at the class, follows superclasses and ends at a root is that walk |
| ClassTables.MembersAppend | src/main/java/com/backpackcloud/reflection/Mirror.java:65-71 | the members of two hierarchies concatenated are their members concatenated |
| ClassTables.MembersContain | src/main/java/com/backpackcloud/reflection/Mirror.java:65-71 | a member is listed exactly when some class of the hierarchy declares it |
| ClassTables.FirstWhere | src/main/java/com/backpackcloud/reflection/Mirror.java:80-92 | the first position meeting the test; none exactly when no position does |
| ClassTables.FirstWhereUnique | src/main/java/com/backpackcloud/reflection/Mirror.java:80-92 | a position that meets the test after positions that all fail it is the one found |
| ClassTables.DeclaredField | src/main/java/com/backpackcloud/reflection/Mirror.java:82-88 | `getDeclaredField`: a declared field of that name; none exactly when no declared field has it |
| ClassTables.DeclaredMethod | src/main/java/com/backpackcloud/reflection/Mirror.java:116-122 | `getDeclaredMethod`: the method with exactly that signature, when declared |
| ClassTables.DeclaredConstructor | src/main/java/com/backpackcloud/reflection/Mirror.java:149-155 | `getDeclaredConstructor`: present exactly when a constructor with those parameter types is declared |
| Mirrors.Mirror.constructor | src/main/java/com/backpackcloud/reflection/Mirror.java:53-59 | the loop records the target, then each superclass up to the root |
| Mirrors.Mirror.Fields | src/main/java/com/backpackcloud/reflection/Mirror.java:65-71 | every declared field of every class in the hierarchy, most-derived class first; a field is listed exactly when some class declares it |
| Mirrors.Mirror.FieldNamed | src/main/java/com/backpackcloud/reflection/Mirror.java:80-92 | empty exactly when no class of the hierarchy declares the name; a result has that name and is one of `fields()` |
| Mirrors.Mirror.FieldFirstDeclarationWins | src/main/java/com/backpackcloud/reflection/Mirror.java:80-92 | the field found is the one declared by the first class that declares the name, so a hidden field is never returned |
| Mirrors.Mirror.Methods | src/main/java/com/backpackcloud/reflection/Mirror.java:98-104 | every declared method of every class in the hierarchy, most-derived class first; a method is listed exactly when some class declares it |
| Mirrors.Mirror.MethodNamed | src/main/java/com/backpackcloud/reflection/Mirror.java:114-134 | with parameter types: exactly that signature, empty exactly when no class declares it; without: the first method of that name in `methods()`, empty exactly when there is none |
| Mirrors.Mirror.MethodFirstDeclarationWins | src/main/java/com/backpackcloud/reflection/Mirror.java:114-126 | with parameter types, the method of the first class that declares that signature is returned |
| Mirrors.Mirror.MethodWithoutTypesTakesFirstByName | src/main/java/com/backpackcloud/reflection/Mirror.java:127-133 | without parameter types, the first method of that name is returned, whatever its parameters |
| Mirrors.Mirror.Constructors | src/main/java/com/backpackcloud/reflection/Mirror.java:140-142 | the constructors of the first class of the hierarchy, the target itself; superclasses contribute none |
| Mirrors.Mirror.ConstructorFor | src/main/java/com/backpackcloud/reflection/Mirror.java:149-155 | present exactly when the target declares a constructor with those parameter types |
| Mirrors.Mirror.Reflect | src/main/java/com/backpackcloud/reflection/Mirror.java:161-169 | `null` throws a NullPointerException; an annotation mirrors its annotation type, a `Class` the class it represents, anything else its runtime class |
| ClassIterators.ClassIterator.constructor | src/main/java/com/backpackcloud/reflection/ClassIterator.java:47-49 | the classes left are the target's walk; a `null` target has none |
| ClassIterators.ClassIterator.HasNext | src/main/java/com/backpackcloud/reflection/ClassIterator.java:52-54 | true exactly when a class is left |
| ClassIterators.ClassIterator.Next | src/main/java/com/backpackcloud/reflection/ClassIterator.java:57-64 | returns the next class and moves to its superclass; when exhausted, throws NoSuchElementException and changes nothing |
| ClassIterators.ClassIterator.Remove | src/main/java/com/backpackcloud/reflection/ClassIterator.java:67-69 | always throws UnsupportedOperationException |
| ClassIterators.ClassIterator.Stream | src/main/java/com/backpackcloud/reflection/ClassIterator.java:71-73 | consumed to the end, the stream gives every class left, in order, and leaves the iterator exhausted |
| ClassIterators.IterateHierarchy | src/main/java/com/backpackcloud/reflection/ClassIterator.java:47-73 | iterating a class gives the same hierarchy a `Mirror` collects, starting at the class, at most `c + 1` long |
| Contexts.Always | src/main/java/com/backpackcloud/reflection/Context.java:66-68 | a fixed value's resolver gives that value for every parameter |
| Contexts.Supplied | src/main/java/com/backpackcloud/reflection/Context.java:59-61 | a supplier's resolver gives the supplied value for every parameter |
| Contexts.FirstMatchWins | src/main/java/com/backpackcloud/reflection/Context.java:112-119 | the first rule whose condition holds decides, even when later rules also match |
| Contexts.NoMatchGivesDefault | src/main/java/com/backpackcloud/reflection/Context.java:112-119 | when no condition holds, the default function decides |
| Contexts.AppendedRuleComesLast | src/main/java/com/backpackcloud/reflection/Context.java:80-103 | a rule added by `when` matters only for parameters that no earlier rule matches |
| Contexts.ResolutionExample | src/test/java/com/backpackcloud/reflection/ContextTest.java:48-71 | the rules of the test resolve a `String`, an `Exception` and an `int` parameter as the test expects |
| Contexts.Context.WithFunction | src/main/java/com/backpackcloud/reflection/Context.java:51-54 | no rules; every parameter resolves through the function |
| Contexts.Context.WithSupplier | src/main/java/com/backpackcloud/reflection/Context.java:59-61 | no rules; every parameter resolves to the supplied value |
| Contexts.Context.WithDefault | src/main/java/com/backpackcloud/reflection/Context.java:66-68 | no rules; every parameter resolves to the value |
| Contexts.Context.constructor | src/main/java/com/backpackcloud/reflection/Context.java:71-73 | no rules; every parameter resolves to `null` |
| Contexts.Context.When | src/main/java/com/backpackcloud/reflection/Context.java:80-83 | appends a fixed-value rule after the existing ones and returns the same context |
| Contexts.Context.WhenSupplied | src/main/java/com/backpackcloud/reflection/Context.java:90-93 | appends a supplier rule after the existing ones and returns the same context |
| Contexts.Context.WhenFunction | src/main/java/com/backpackcloud/reflection/Context.java:100-103 | appends a function rule after the existing ones and returns the same context |
| Contexts.Context.Resolve | src/main/java/com/backpackcloud/reflection/Context.java:112-119 | the scan gives the first matching rule's value, or the default's when no rule matches |
| Contexts.Context.Arguments | src/main/java/com/backpackcloud/reflection/Context.java:128-134 | one argument per parameter, each the parameter's own resolution |
| Contexts.Context.ResolveAll | src/main/java/com/backpackcloud/reflection/Context.java:128-134 | a new array holding each parameter's resolution, in order |
| Contexts.Context.ResolveExecutable | src/main/java/com/backpackcloud/reflection/Context.java:139-141 | the arguments for the executable's parameters, in order |
| Contexts.Context.FirstInstantiable | src/main/java/com/backpackcloud/reflection/Context.java:162-180 | the first constructor, from a position on, whose arguments all resolve to non-`null`; none exactly when no such constructor exists |
| Contexts.Context.Selection | src/main/java/com/backpackcloud/reflection/Context.java:146-182 | no constructor fails; a sole constructor is used whatever its arguments; among several, the first with all arguments resolved; failure exactly when none has them |
| Contexts.Context.FirstInstantiableIs | src/main/java/com/backpackcloud/reflection/Context.java:162-180 | the first constructor with all arguments resolved, after ones without, is the one chosen |
| Contexts.Context.Create | src/main/java/com/backpackcloud/reflection/Context.java:146-182 | the nested loops with their early exit choose exactly the selection's constructor and arguments |
| PreferenceTypes.TextConverter | src/main/java/com/backpackcloud/preferences/PreferenceType.java:48 | `TEXT` keeps the input as it is |
| PreferenceTypes.FlagConverter | src/main/java/com/backpackcloud/preferences/PreferenceType.java:53-58 | accepts exactly on/true/yes/off/false/no, case-sensitively, true for the first three; anything else is invalid input |
| PreferenceTypes.NumberConverter | src/main/java/com/backpackcloud/preferences/PreferenceType.java:61 | `Integer.parseInt`: succeeds exactly on a well-formed decimal within the 32-bit range, with the number it denotes; NumberFormatException otherwise |
| PreferenceTypes.BuiltInConversions | src/main/java/com/backpackcloud/preferences/PreferenceType.java:48-58 | `TEXT` is the identity; `FLAG` reads "yes" and "off" but rejects "TRUE" and "1" |
| PreferenceTypes.NumberConverterExamples | src/main/java/com/backpackcloud/preferences/PreferenceType.java:61 | "+7" and "007" convert to 7; "a", "-" and "" are rejected |
| PreferenceTypes.NumberRoundTrip | src/main/java/com/backpackcloud/preferences/PreferenceType.java:61 | every 32-bit number written in decimal converts back to itself; one past the range is rejected |
| Preferences.Broadcast | src/main/java/com/backpackcloud/preferences/Preference.java:72-76 | each listener is told once, in the order they registered |
| Preferences.BroadcastAppend | src/main/java/com/backpackcloud/preferences/Preference.java:72-76 | telling one more listener appends one call at the end |
| Preferences.Preference.constructor | src/main/java/com/backpackcloud/preferences/Preference.java:47-51 | a new preference has no listeners, holds its default input and that input's converted value |
| Preferences.Preference.New | src/main/java/com/backpackcloud/preferences/Preference.java:47-51 | creation fails as the default's conversion fails; otherwise a new preference with its default value and no listeners |
| Preferences.Preference.Value | src/main/java/com/backpackcloud/preferences/Preference.java:59-61 | the value is what the current input converts to |
| Preferences.Preference.InputValue | src/main/java/com/backpackcloud/preferences/Preference.java:64-66 | the input that produced the value, as an input value; its text is empty exactly when that input is "" |
| Preferences.Preference.Set | src/main/java/com/backpackcloud/preferences/Preference.java:72-76 | a failed conversion changes nothing and tells no one; otherwise it stores value and input and tells each listener once, in order |
| Preferences.Preference.Reset | src/main/java/com/backpackcloud/preferences/Preference.java:80-82 | back to the default input and its value, telling every listener |
| Preferences.Preference.Listen | src/main/java/com/backpackcloud/preferences/Preference.java:96-99 | the new listener is told the current value, then added after the others; the value is unchanged |
| UserPreferencesRegistry.Lookup | src/main/java/com/backpackcloud/preferences/UserPreferences.java:52 | `Map.get` finds an entry only for an id key that is present; a spec key never finds one |
| UserPreferencesRegistry.RegisterLookupFindsNothing | src/main/java/com/backpackcloud/preferences/UserPreferences.java:52 | even when the spec's id is registered, looking the spec up finds nothing, while its id finds the preference |
| UserPreferencesRegistry.AsFlag | src/main/java/com/backpackcloud/preferences/UserPreferences.java:128-130 | a flag value gives its boolean; any other value fails the cast; a failure passes through |
| UserPreferencesRegistry.Negate | src/main/java/com/backpackcloud/preferences/UserPreferences.java:138-140 | the negated boolean, or the same failure |
| UserPreferencesRegistry.UserPreferences.constructor | src/main/java/com/backpackcloud/preferences/UserPreferences.java:45 | a new registry holds no preferences |
| UserPreferencesRegistry.UserPreferences.Find | src/main/java/com/backpackcloud/preferences/UserPreferences.java:85-87 | present exactly when the id is registered, and then that preference |
| UserPreferencesRegistry.UserPreferences.CurrentValue | src/main/java/com/backpackcloud/preferences/UserPreferences.java:98-103 | the value `get(spec)` hands out: the stored preference's value, or the spec's converted default |
| UserPreferencesRegistry.UserPreferences.Register | src/main/java/com/backpackcloud/preferences/UserPreferences.java:47-53 | as written: adds a preference when the id is new and never replaces one, but always returns `null` |
| UserPreferencesRegistry.UserPreferences.RegisterFixed | src/main/java/com/backpackcloud/preferences/UserPreferences.java:47-53 | corrected: the same registration, returning the preference stored under the spec's id |
| UserPreferencesRegistry.RegisterThenFind | src/main/java/com/backpackcloud/preferences/UserPreferences.java:47-53 | registering a spec with id "theme" in an empty registry returns `null`, although `find("theme")` then finds the preference |
| UserPreferencesRegistry.RegisterFixedThenFind | src/main/java/com/backpackcloud/preferences/UserPreferences.java:47-53 | with the correction, the same registration returns the preference that `find("theme")` finds |
| UserPreferencesRegistry.RegisterAllFirstWins | src/main/java/com/backpackcloud/preferences/UserPreferences.java:56-60 | of two specs with the same id, the first one is registered |
| UserPreferencesRegistry.UserPreferences.RegisterAll | src/main/java/com/backpackcloud/preferences/UserPreferences.java:56-60 | in argument order: keeps every existing preference; a new id gets a fresh preference made from the first spec carrying it; succeeds when every default converts, and then every spec's id is registered and nothing else; on failure, the first spec whose id was not yet registered and whose default does not convert is where it stopped, with everything before it registered and nothing after |
| UserPreferencesRegistry.UserPreferences.Get | src/main/java/com/backpackcloud/preferences/UserPreferences.java:98-103 | the stored preference for the id, made from the spec first when missing (exactly one entry added); fails only when a new preference's default does not convert, leaving the registry unchanged |
| UserPreferencesRegistry.UserPreferences.List | src/main/java/com/backpackcloud/preferences/UserPreferences.java:108-110 | every registered preference exactly once |
| UserPreferencesRegistry.UserPreferences.Watch | src/main/java/com/backpackcloud/preferences/UserPreferences.java:112-116 | gets the preference as `get` does, tells the listener its value and adds the listener last; that preference's value and input stay, its log gains exactly that call; every other preference is untouched; returns the registry |
| UserPreferencesRegistry.UserPreferences.Supply | src/main/java/com/backpackcloud/preferences/UserPreferences.java:118-120 | the supplier gives the current value of the preference `get(spec)` returns, changing the registry as `get` does |
| UserPreferencesRegistry.UserPreferences.IsEnabled | src/main/java/com/backpackcloud/preferences/UserPreferences.java:128-130 | the flag the preference holds, or a cast failure for a value that is not a flag; the registry changes as `get` changes it |
| UserPreferencesRegistry.UserPreferences.IsDisabled | src/main/java/com/backpackcloud/preferences/UserPreferences.java:138-140 | always the negation of `isEnabled`; the registry changes as `get` changes it |

## Left out

- A `null` string handed to `of`, `value(...)` or `set(...)` is not modelled. `InputValue` models only `EMPTY` as `null`. A raw value is always a string.
- Character handling is ASCII only. Digits are '0'-'9', and upper-casing covers 'a'-'z'. Java's `Character.isDigit` accepts other Unicode digits, and `toUpperCase` folds other letters; those are not modelled.
- `asDouble`, `asTemporal` and `PreferenceType.DECIMAL` are not modelled, because floating point and date-time formats are outside the model.
- `InputValue.of(Supplier)` is not modelled. A supplier is modelled as a value it returns, with no side effects.
- `Configuration.read()` and `readLines()` for files, resources and URLs are not modelled. They do stream I/O. The model gives file and resource contents through `Environment`.
- `FileConfiguration`, `EnvironmentVariableConfiguration`, `SystemPropertyConfiguration` and `NotSuppliedConfiguration` are not part of this model beyond what `Configuration.java` states about them. Their set-ness and contents come from `Environment`.
- `UrlConfiguration` and `ResourceConfiguration` are not part of this model beyond their construction, `isSet` and `get`. `java.net.URL`'s parser is a parameter (`UrlForms`): the locations it accepts and the external form of each. Fetching a URL's content (`read`, `readLines`, `load`) is not modelled. A resource is set when the class loader finds it.
- `PreferenceSpec` and `Reflection` are not part of this model. A spec is an id, a type and a default input. `ClassIterator(Object)` would go through `Reflection.typeOf`, and only the `Class` constructor is modelled.
- `MirrorImpl` and the reflection predicates are not part of this model.
- `UserPreferences.register(Class)` is not modelled: it reads static fields through reflection.
- Concurrency is not modelled. This covers `ConcurrentHashMap` and races between `containsKey` and `put`.
- `List` returns the preferences in an unspecified order, as `ConcurrentHashMap.values()` does.
- Listener exceptions and listeners that re-enter the preference are not modelled. A listener is an opaque id, and the log of calls is ghost state.
- `Context.Create` stops at the constructor and arguments it chose. Calling `newInstance` and the exceptions that call wraps are not modelled.
- `ClassIterator.Stream`: the Java stream is lazy and may be stopped early. The model drains it.
- PreferenceTypes.Convert: has no contract of its own; it is the type's converter applied to the input, and each built-in converter's contract is stated on the converter.

## Findings

| source | as written | input that shows it | evidently intended | confidence | as-written member | corrected member |
|---|---|---|---|---|---|---|
| src/main/java/com/backpackcloud/preferences/UserPreferences.java:52 | `register(spec)` returns `preferencesMap.get(spec)`, looking up a `String`-keyed map with the spec object | any spec, e.g. one with id "theme": after registering, the map holds "theme", but the call returns `null` | return `preferencesMap.get(spec.id())`, the preference registered under the spec's id | not executed | UserPreferencesRegistry.UserPreferences.Register | UserPreferencesRegistry.UserPreferences.RegisterFixed |
