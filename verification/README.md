# Address book command core, in Dafny

A model of the command core of an address book for insurance agents. Clients
carry policy tags, and one tag variant marks a client as a priority. The model
covers three pieces:

- **The command dispatcher** (`AddressBookParser.parseCommand`). It trims a
  line as `String.trim` does and splits it with the pattern
  `(?<commandWord>\S+)(?<arguments>.*)`. It lower-cases the word and looks it
  up in the fixed registry of 16 command words. Then it either builds a
  no-argument command or hands the argument tail to that command's parser.
- **`DeletePolicyCommand`**: its `execute`, equality and field dump, as its
  tests describe them. Execution checks the index against the displayed list,
  then checks that at least one requested tag is on the client. It then replaces
  that one client with a copy holding the remaining tags and reports the result.
- **The phone validator** (`Phone.isValidPhone`) and the `Phone` value
  object, as pinned by the boundary strings in its tests.

Files:

- `results.dfy`: `Option` and `Result`, standing in for exceptions.
- `text.dfy`: the Java string behaviour the dispatcher depends on (`trim`,
  the regex classes `\s` and `.`, lower-casing).
- `phone.dfy`: the phone language, a char-by-char checker proved equal to it,
  and the test vectors.
- `client.dfy`: `Tag` (plain or priority), `Client`, and the 1-based index.
- `messages.dfy`: symbolic usage texts.
- `delete_policy.dfy`: the delete-policy command.
- `dispatcher.dfy`: the dispatcher.

The per-command argument parsers are not part of this model. The dispatcher
takes them as a function parameter (`ArgParser`) and returns what they return.
Message texts are symbolic. An error records which message it is, and the
success result records which client is formatted and whether the advisory
suffix follows.

`parseCommand` trims the whole line (AddressBookParser.java line 49) before
matching, so trailing whitespace never reaches a parser. Leading whitespace
of the argument tail does reach it. `Dispatcher.ArgumentsReachTheirParser`
states this: for a word `w` and a tail `a`, the parser receives `TrimEnd(a)`.

## Model

| member | source | states |
|---|---|---|
| JavaText.LeadingCount | src/main/java/seedu/address/logic/parser/AddressBookParser.java:49 | the leading run that trim skips is as long as possible: every char before it is at or below U+0020, and it ends at the end of the line or at a char above U+0020 |
| JavaText.TrailingStart | src/main/java/seedu/address/logic/parser/AddressBookParser.java:49 | the trailing run that trim drops is as long as possible: every char from it on is at or below U+0020, and the char before it is above U+0020 |
| JavaText.TrimStart | src/main/java/seedu/address/logic/parser/AddressBookParser.java:49 | without its leading padding a line is empty or starts with a char above U+0020 |
| JavaText.TrimEnd | src/main/java/seedu/address/logic/parser/AddressBookParser.java:49 | without its trailing padding a line is empty or ends with a char above U+0020 |
| JavaText.LeadingCountOfPadding | src/main/java/seedu/address/logic/parser/AddressBookParser.java:49 | padding put in front of a line lengthens the skipped run by exactly its length |
| JavaText.TrailingStartOfPadding | src/main/java/seedu/address/logic/parser/AddressBookParser.java:49 | padding put after a line leaves the start of the trailing run where it was |
| JavaText.TrimStartAppend | src/main/java/seedu/address/logic/parser/AddressBookParser.java:49 | text appended after a line with a visible char survives the leading trim unchanged |
| JavaText.TrimEndPrepend | src/main/java/seedu/address/logic/parser/AddressBookParser.java:49 | text put before a line with a visible char survives the trailing trim unchanged |
| JavaText.Trim | src/main/java/seedu/address/logic/parser/AddressBookParser.java:49 | the trimmed line is empty or has a char above U+0020 at each end; it is empty exactly when every input char is at or below U+0020 |
| JavaText.TrimIsInfix | src/main/java/seedu/address/logic/parser/AddressBookParser.java:49 | the trimmed line is an infix of the input, padded on both sides only by chars trim strips |
| JavaText.TrimIgnoresPadding | src/main/java/seedu/address/logic/parser/AddressBookParser.java:49 | adding trimmable chars before and after a string does not change its trimmed form |
| JavaText.TrimIdempotent | src/main/java/seedu/address/logic/parser/AddressBookParser.java:49 | trimming a trimmed line changes nothing |
| JavaText.RegexSpaceIsTrimmable | src/main/java/seedu/address/logic/parser/AddressBookParser.java:38-49 | every char of the regex class \s is stripped by trim |
| JavaText.LowerChar | src/main/java/seedu/address/logic/parser/AddressBookParser.java:62 | upper-case ASCII letters map to their lower-case letters; every other char is kept |
| JavaText.Lower | src/main/java/seedu/address/logic/parser/AddressBookParser.java:62 | lower-casing keeps the length and maps each char on its own |
| JavaText.LowerIdempotent | src/main/java/seedu/address/logic/parser/AddressBookParser.java:62 | lower-casing twice is lower-casing once |
| Dispatcher.WordLength | src/main/java/seedu/address/logic/parser/AddressBookParser.java:38 | the leading run of non-space chars is maximal: it holds no regex space, and it ends at the end of the line or at a space |
| Dispatcher.Word | src/main/java/seedu/address/logic/parser/AddressBookParser.java:64-110 | each case label of the switch is a non-empty word of lower-case ASCII letters |
| Dispatcher.TakesNoArguments | src/main/java/seedu/address/logic/parser/AddressBookParser.java:82-110 | the six cases that build their command without reading the arguments: clear, list, exit, help, sort and sortpriority |
| Dispatcher.Match | src/main/java/seedu/address/logic/parser/AddressBookParser.java:38-55 | matches() succeeds exactly when some split into a non-space word and a single-line rest exists; it then returns the greedy word, with word + arguments equal to the trimmed line and arguments empty or starting with a space |
| Dispatcher.WordEndsBeforeTail | src/main/java/seedu/address/logic/parser/AddressBookParser.java:38 | after a non-space word, a tail that is empty or starts with a space ends the word group |
| Dispatcher.MatchFindsWordAndTail | src/main/java/seedu/address/logic/parser/AddressBookParser.java:38-55 | the split is unique: a non-space word and a single-line tail that is empty or starts with a space come back as exactly that word and tail |
| Dispatcher.RegistryComplete | src/main/java/seedu/address/logic/parser/AddressBookParser.java:64-110 | every command kind has a case in the switch |
| Dispatcher.WordsDistinct | src/main/java/seedu/address/logic/parser/AddressBookParser.java:62-114 | no two kinds share a command word |
| Dispatcher.WordsLowerCase | src/main/java/seedu/address/logic/parser/AddressBookParser.java:62 | every registered word is already lower case, so a lower-cased input word can match it |
| Dispatcher.Find | src/main/java/seedu/address/logic/parser/AddressBookParser.java:62-114 | a search of the switch's cases returns a kind registered under the word, or reports that no case has it |
| Dispatcher.Lookup | src/main/java/seedu/address/logic/parser/AddressBookParser.java:62-114 | the lookup fails exactly when no kind has the word, and otherwise returns a kind registered under it |
| Dispatcher.LookupInvertsWord | src/main/java/seedu/address/logic/parser/AddressBookParser.java:62-114 | looking up a kind's word gives that kind, and only that kind's word gives it |
| Dispatcher.Dispatch | src/main/java/seedu/address/logic/parser/AddressBookParser.java:64-110 | the case bodies: a fixed command for the six no-argument kinds, the kind's own parser applied to the arguments for the other ten |
| Dispatcher.DispatchDependsOnlyOnItsParser | src/main/java/seedu/address/logic/parser/AddressBookParser.java:64-110 | a no-argument case ignores both the arguments and the parsers; an argument-taking case is decided by what its own parser returns for the arguments |
| Dispatcher.ParseCommand | src/main/java/seedu/address/logic/parser/AddressBookParser.java:48-52 | a blank line, or any line the pattern does not match, fails with the invalid-format error around the help usage |
| Dispatcher.TrimWordAndTail | src/main/java/seedu/address/logic/parser/AddressBookParser.java:49 | trimming a word followed by a tail only drops the tail's trailing whitespace |
| Dispatcher.RegisteredWordIsVisible | src/main/java/seedu/address/logic/parser/AddressBookParser.java:62-110 | a word that lower-cases to a case label holds no char that trim strips, so every registered word survives trimming whole |
| Dispatcher.ParseWordAndTail | src/main/java/seedu/address/logic/parser/AddressBookParser.java:49-114 | a line made of a word and a tail is decided by the lower-cased word alone: an unregistered word is an unknown command, and a registered one dispatches with the tail minus its trailing whitespace |
| Dispatcher.ParseIgnoresPadding | src/main/java/seedu/address/logic/parser/AddressBookParser.java:49 | whitespace added before or after a line never changes the result |
| Dispatcher.ParseIsCaseInsensitive | src/main/java/seedu/address/logic/parser/AddressBookParser.java:62 | two lines whose words differ only in letter case parse to the same result |
| Dispatcher.UnknownWordRejected | src/main/java/seedu/address/logic/parser/AddressBookParser.java:112-114 | a word that is not registered in any case fails with the unknown-command error |
| Dispatcher.ArgumentsReachTheirParser | src/main/java/seedu/address/logic/parser/AddressBookParser.java:64-104 | an argument-taking kind returns its own parser's result or error unchanged, given the tail as typed minus trailing whitespace |
| Dispatcher.NoArgCommandsIgnoreTail | src/main/java/seedu/address/logic/parser/AddressBookParser.java:82-110 | clear, list, exit, help, sort and sortpriority give their fixed command whatever tail follows, as long as the tail is on one line once its trailing whitespace is dropped |
| Dispatcher.BlankExamples | src/main/java/seedu/address/logic/parser/AddressBookParser.java:49-52 | the empty line and an all-space line fail with the invalid-format error |
| Dispatcher.LineBreakRejected | src/main/java/seedu/address/logic/parser/AddressBookParser.java:38-52 | a tail that goes on past a line break fails with the invalid-format error, because `.` matches no line terminator |
| Dispatcher.VisibleWordHasNoSpace | src/main/java/seedu/address/logic/parser/AddressBookParser.java:38 | a word of chars above U+0020 holds no char of the regex class \s |
| Dispatcher.TailWithLineBreakUnmatched | src/main/java/seedu/address/logic/parser/AddressBookParser.java:38-50 | a visible word followed by a tail holding a line terminator has no split the pattern accepts |
| Dispatcher.LineBreakExample | src/main/java/seedu/address/logic/parser/AddressBookParser.java:38-52 | "list", a newline, then "clear" is refused as badly formatted |
| Dispatcher.PaddedNoArgCommand | src/main/java/seedu/address/logic/parser/AddressBookParser.java:49-110 | a no-argument command word, in any case and surrounded by any whitespace, gives its fixed command |
| Dispatcher.PaddedListExample | src/main/java/seedu/address/logic/parser/AddressBookParser.java:88-89 | "  LIST  " parses to the list command |
| Dispatcher.ExitWithTailExample | src/main/java/seedu/address/logic/parser/AddressBookParser.java:91-92 | "Exit now" parses to the exit command; the tail is ignored |
| Dispatcher.UnknownWordExample | src/main/java/seedu/address/logic/parser/AddressBookParser.java:112-114 | "frobnicate 1" is an unknown command |
| Dispatcher.DeletePolicyLineExample | src/main/java/seedu/address/logic/parser/AddressBookParser.java:79-80 | "deletePolicy 1 t/Life " reaches the delete-policy parser as " 1 t/Life" |
| Dispatcher.CrLfLineExample | src/main/java/seedu/address/logic/parser/AddressBookParser.java:49-80 | "deletePolicy 1" closed by "\r\n" reaches the delete-policy parser as " 1": trim drops the line break before the pattern sees it |
| ClientModel.MakeTag | src/test/java/seedu/address/logic/commands/DeletePolicyCommandTest.java:81 | a plain tag is built exactly when its name is non-empty, and it keeps that name |
| ClientModel.MakePriorityTag | src/test/java/seedu/address/model/tag/PriorityTagTest.java:15-18 | a priority tag is built exactly when its name is non-empty |
| ClientModel.EmptyPriorityTagNameRejected | src/test/java/seedu/address/model/tag/PriorityTagTest.java:15-18 | the empty name is refused |
| ClientModel.WithTags | src/test/java/seedu/address/logic/commands/DeletePolicyCommandTest.java:60-66 | the rebuilt client keeps name, phone, email and address and holds exactly the given tags |
| DeletePolicy.Updated | src/test/java/seedu/address/logic/commands/DeletePolicyCommandTest.java:57-66 | the new client's tags are the old ones minus the deleted set: a subset, disjoint from the deleted set, keeping every other tag, with the other fields unchanged |
| DeletePolicy.Execute | src/test/java/seedu/address/logic/commands/DeletePolicyCommandTest.java:44-100 | it fails with the invalid-index error exactly when the index is past the displayed list. It fails with policy-not-found exactly when the index is in range and no deleted tag is on the client. It succeeds exactly when the index is in range and at least one requested tag is on the client. On success only the target position changes, its tags really shrink, the message shows the updated client, and the advisory is present whenever a priority tag was removed under a rule that asks for it |
| DeletePolicy.AdvisoryRulesAdmissible | src/test/java/seedu/address/logic/commands/DeletePolicyCommandTest.java:71-72 | appending the advisory after every deletion, and appending it only when a priority tag goes, both meet the priority-removal requirement |
| DeletePolicy.RemovedTagsAreTheIntersection | src/test/java/seedu/address/logic/commands/DeletePolicyCommandTest.java:57-66 | the tags removed are exactly the client's tags that were asked for; putting them back gives the original client |
| DeletePolicy.SecondDeletionFails | src/test/java/seedu/address/logic/commands/DeletePolicyCommandTest.java:91-100 | repeating a successful deletion on its result fails with policy-not-found |
| DeletePolicy.AbsentTagsIgnored | src/test/java/seedu/address/logic/commands/DeletePolicyCommandTest.java:170-181 | requested tags the client does not hold change nothing: success or failure, the new list and the client the message shows all match deleting only the present ones |
| DeletePolicy.IndexPastEndFails | src/test/java/seedu/address/logic/commands/DeletePolicyCommandTest.java:78-88 | index size + 1 always fails with the invalid-index error and the delete-policy usage |
| DeletePolicy.DeleteExistingPolicy | src/test/java/seedu/address/logic/commands/DeletePolicyCommandTest.java:44-75 | deleting one tag of the first client gives the original list with that one client replaced, and a message formatting the replacement |
| DeletePolicy.DeleteMissingPolicy | src/test/java/seedu/address/logic/commands/DeletePolicyCommandTest.java:90-100 | deleting a tag the second client lacks fails with policy-not-found |
| DeletePolicy.DeleteSeveralPolicies | src/test/java/seedu/address/logic/commands/DeletePolicyCommandTest.java:149-182 | deleting two added policies at once removes both, and the message shows the client as it now is in the list |
| DeletePolicy.DeletePriorityPolicy | src/test/java/seedu/address/logic/commands/DeletePolicyCommandTest.java:184-212 | deleting the priority tag succeeds, and the message carries the advisory after the success text |
| DeletePolicy.LifeInsuranceExample | src/test/java/seedu/address/logic/commands/DeletePolicyCommandTest.java:77-100 | in a two-client list where client 1 holds only "Life Insurance": deleting it leaves no tags, a missing tag fails, and index 3 fails |
| DeletePolicy.CommandEquality | src/test/java/seedu/address/logic/commands/DeletePolicyCommandTest.java:102-131 | two commands are equal exactly when their indices and tag sets are equal |
| DeletePolicy.DebugFields | src/test/java/seedu/address/logic/commands/DeletePolicyCommandTest.java:133-147 | the dump has two fields, clientIndex first and then policiesToDelete |
| DeletePolicy.DebugFieldsFaithful | src/test/java/seedu/address/logic/commands/DeletePolicyCommandTest.java:133-147 | two dumps are equal exactly when the commands are |
| Phones.IsValidPhone | src/test/java/seedu/address/model/client/PhoneTest.java:23-55 | the accepted language: the placeholder "-", a local number of 3 to 13 digits, or '+', a code of 1 to 3 digits, one space and a local number |
| Phones.MakePhone | src/test/java/seedu/address/model/client/PhoneTest.java:17-21 | a Phone is built exactly when the string is valid, keeps the string, and otherwise fails |
| Phones.SeparatorIsAfterCodeRun | src/test/java/seedu/address/model/client/PhoneTest.java:36-41 | after '+' and a maximal digit run, the string is international exactly when the separating space sits right after that run |
| Phones.ScanDigits | src/test/java/seedu/address/model/client/PhoneTest.java:23-55 | the scan stops at the end of the maximal digit run starting at the given position |
| Phones.LocalNumberIsWholeRun | src/test/java/seedu/address/model/client/PhoneTest.java:29-53 | after a maximal digit run, the rest is a local number exactly when the run reaches the end and has 3 to 13 digits |
| Phones.CheckPhone | src/test/java/seedu/address/model/client/PhoneTest.java:23-55 | a char-by-char scan accepts exactly the valid phone strings |
| Phones.PhoneToString | src/test/java/seedu/address/model/client/PhoneTest.java:83-90 | a phone prints as its raw string, and building a phone from the printed form of a valid one gives it back |
| Phones.PhoneRoundTrip | src/test/java/seedu/address/model/client/PhoneTest.java:83-90 | the printed form of a valid phone is its raw string, and it rebuilds the same phone |
| Phones.PhoneEqualityIsByValue | src/test/java/seedu/address/model/client/PhoneTest.java:57-81 | phones built from valid strings are equal exactly when the strings are |
| Phones.ValidPhoneChars | src/test/java/seedu/address/model/client/PhoneTest.java:32-54 | a valid phone holds only digits, '+', spaces and '-' |
| Phones.LetterRejected | src/test/java/seedu/address/model/client/PhoneTest.java:32-43 | a letter anywhere makes the string invalid |
| Phones.SpaceNeedsInternationalCode | src/test/java/seedu/address/model/client/PhoneTest.java:34 | without a leading '+', a space anywhere makes the string invalid |
| Phones.LongCodeRejected | src/test/java/seedu/address/model/client/PhoneTest.java:36-41 | an international code of four or more digits makes the string invalid |
| Phones.ValidPhoneLength | src/test/java/seedu/address/model/client/PhoneTest.java:35-38 | a valid phone has between 1 and 18 chars |
| Phones.RejectedLengthVectors | src/test/java/seedu/address/model/client/PhoneTest.java:29-35 | the empty string, a lone space, 2 digits and 14 digits are invalid |
| Phones.RejectedCharVectors | src/test/java/seedu/address/model/client/PhoneTest.java:32-43 | strings with letters, and a space without an international code, are invalid |
| Phones.RejectedCodeVectors | src/test/java/seedu/address/model/client/PhoneTest.java:36-41 | codes of four or more digits, and 15 digits after a two-digit code, are invalid |
| Phones.AcceptedLocalVectors | src/test/java/seedu/address/model/client/PhoneTest.java:46-54 | local numbers of 3, 8 and 12 digits and the placeholder "-" are valid |
| Phones.AcceptedOneDigitCode | src/test/java/seedu/address/model/client/PhoneTest.java:49 | "+1 1234567890" is valid |
| Phones.AcceptedTwoDigitCode | src/test/java/seedu/address/model/client/PhoneTest.java:50 | "+12 1234567890" is valid |
| Phones.AcceptedSingaporeNumber | src/test/java/seedu/address/model/client/PhoneTest.java:52 | "+65 12345678" is valid, builds a Phone, and prints back as typed |
| Phones.AcceptedThreeDigitCode | src/test/java/seedu/address/model/client/PhoneTest.java:51 | "+123 1234567890" is valid |
| Phones.InternationalAt | src/test/java/seedu/address/model/client/PhoneTest.java:49-52 | a string with a code and a local number split at a given position is valid |
| Phones.ConstructorVectors | src/test/java/seedu/address/model/client/PhoneTest.java:17-90 | the empty string cannot be a Phone; "999" and "-" can; different strings give different phones; printing returns the raw string |

## Left out

- Logging (AddressBookParser.java lines 39, 60 and 113) has no effect on behaviour.
- The per-command argument parsers are not part of this model. They are the `ArgParser` parameter, so every property about them holds for any parser.
- The COMMAND_WORD constants live in command classes that are not part of this model, so their values are assumed: add, addpolicy, edit, update, delete, deletepolicy, clear, find, list, exit, help, priority, findor, findand, sort, sortpriority. The general lemmas rely only on the words being distinct, non-empty and lower case. The example lemmas (Dispatcher.PaddedListExample, Dispatcher.ExitWithTailExample, Dispatcher.UnknownWordExample, Dispatcher.DeletePolicyLineExample, Dispatcher.CrLfLineExample) use the assumed values.
- `String.toLowerCase` is modelled for ASCII letters only. Its locale-dependent and non-ASCII mappings (for example, the Turkish dotless i) are not modelled.
- The regex `.` is modelled as rejecting \n, \r, U+0085, U+2028 and U+2029. The two-char \r\n terminator is covered, since each of its chars is refused on its own.
- Dispatcher.ParseIsCaseInsensitive: stated only for command words whose chars are all above U+0020 (`IsVisibleWord`). A word holding a control char at or below U+0020 anywhere, such as "li\u0001st", is still split and looked up by `ParseCommand`, but the lemma says nothing about it.
- Dispatcher.ParseWordAndTail: the same `IsVisibleWord` restriction on the command word. For a word that lower-cases to a registered word it always holds (Dispatcher.RegisteredWordIsVisible), so only unregistered words are left out.
- Dispatcher.UnknownWordRejected: the same `IsVisibleWord` restriction on the command word.
- Message texts, `Messages.format` and `ToStringBuilder` are not modelled: errors and feedback are symbolic, and the field dump is a list of name/value pairs.
- DeletePolicy.Execute: whether the advisory suffix is appended is the `AdvisoryRule` parameter. The model only requires that it is appended whenever a priority tag is removed. The test at DeletePolicyCommandTest.java lines 71-72 expects the suffix after an ordinary deletion too, so the model never claims that the suffix is absent.
- DeletePolicy.DeletePriorityPolicy: the success message formats the updated client. The test at line 210 formats the client before deletion. The two messages agree exactly when `Messages.format` does not show the removed priority tag, for example if it never prints a priority tag; `Messages.format` is not part of this model.
- The model manager, the master list, the filtered view and `setClient`'s replace-by-identity are not modelled. The displayed list is the state, and replacing the client at its position stands for `setClient`.
- The CommandResult flags (exit, show help) belong to the presentation layer.
- Java `equals(Object)` against null or other types is ruled out by the types; Dafny's structural equality of the datatypes stands for `equals`.
- A plain tag and a priority tag with the same name are different values here. How the Java tag classes compare across variants is not part of this model.
- Tag-name validity is modelled only as "non-empty", the one rule the tests pin.
- Phones.IsValidPhone: the tests pin local numbers at 3 (valid) and 12 (valid) digits, and at 2 and 14 (invalid), so the upper bound may be 12 or 13. The model uses 13, as the test's comment says. The same 3 to 13 bound is assumed for the number after an international code: the tests pin 8 and 10 as valid and 15 as invalid.
- The null-argument tests throw NullPointerException, which has no counterpart here.
- PriorityCommand, SortPriorityCommand, the find commands and the other commands' execution fall outside the dispatcher and delete-policy core modelled here.
