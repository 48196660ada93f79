# Contact bot and address book, modelled in Dafny

This project models two parts of a small Python contact assistant.

The first part is the command pipeline of the console bot. A line of input becomes a command word and its argument tokens (`parse_input`). The command is dispatched through a fixed table (`execute_command`) to the handlers `add`, `change`, `phone` and `all`. Each argument-taking handler is wrapped by two decorators:

- `validate_args` folds multi-word names into one argument, checks the argument count and runs the per-position validators `is_valid_name` and `is_valid_phone`, stopping at the first refusal;
- `input_error` turns `ValueError`, `KeyError` and `IndexError` into fixed message texts.

The bot's store is a `dict[str, str]` from names to the phone tokens as typed. `show_all` lists the store as a table sorted by lower-cased name, with the name column as wide as the longest name.

The second part is the `task/models` address-book package:

- a `Name` and a `Phone` value object, each checked on construction; the phone is also reduced to its digits;
- a `Record` with an ordered list of phones that can be appended to, filtered, edited in place at the first match and searched;
- an `AddressBook` that keeps records under their names.

## Layout

| file | module | what it holds |
|---|---|---|
| text.dfy | `Wrappers`, `Text` | `Option`/`Result`; ASCII versions of `strip`, `split`, `join`, `lower`, `ljust`, `isdigit`, `isalpha` and string ordering, with their lemmas |
| dicts.dfy | `Dicts` | an insertion-ordered dict (key order plus map), as Python dicts iterate |
| messages.dfy | `MessageTexts` | the user-facing texts of `task/message_texts.py` |
| validators.dfy | `Validators` | `is_valid_phone` as a predicate; `is_valid_name` as a declarative predicate and as the source's loop, proved equal |
| input_parser.dfy | `InputParser` | `parse_input` |
| decorators.dfy | `Decorators` | `input_error`, and `validate_args` as a specification function `Screen` and the wrapper's loop `ScreenArgs`, proved equal |
| table.dfy | `ContactTable` | `show_all`: a stable sort by lower-cased name and the table layout |
| handlers.dfy | `Handlers` | the handler bodies, the decorated handlers, the dispatch table, and methods on a mutable store class that are proved against them |
| handler_properties.dfy | `HandlerProperties` | what add, change, phone and dispatch promise, the store invariant, and an example session |
| fields.dfy | `Fields` | `Name`, `Phone`, `re.sub(r"\D", "", s)` and the package's errors |
| record.dfy | `Records` | the `Record` class |
| address_book.dfy | `AddressBooks` | the `AddressBook` class and the package's example session |

Raised exceptions are values: `Decorators.Exception` and `Decorators.Outcome` inside the bot, and `Fields.ModelError` in the package, returned as `Result` or `Option`. A decorated handler is the explicit composition of three stages: screen the arguments, run the body, translate the outcome. Messages are the plain constants. The colour that `colored_output` adds is not modelled, so `execute_command` is modelled on its text before colouring.

Phone policy: the code accepts a phone when the stripped text, less one leading `+`, is 10 to 15 ASCII digits (task/validators.py:33-39). The format message (task/message_texts.py:25-28) and the `Phone` docstring (task/models/phone.py:14) advertise ten local digits and hyphen or parenthesis forms. The code rejects those forms, and the model follows the code (`Validators.PhoneSeparatorExamples`).

The bot's store keeps the phone token verbatim (task/handlers.py:51-52). Only the package's `Phone` normalises.

`show_all` pads the header with `ljust`. When every stored name is shorter than four characters, the header therefore does not line up with the rule and the rows. The model keeps this behaviour (`ContactTable.ShortNameListing`).

## Model

| member | source | states |
|---|---|---|
| Validators.PhoneDigits | task/validators.py:33-36 | defines the text the phone check counts: the stripped input less one leading `+`; no ensures of its own, its properties are the PhoneOfLayout and ValidPhoneShape rows |
| Validators.IsValidPhone | task/validators.py:33-39 | defines is_valid_phone: PhoneDigits is all digits and 10 to 15 long; no ensures of its own, its properties are the PhoneOfLayout, ValidPhoneShape, DigitCountBounds and RejectsInnerNonDigit rows |
| Validators.PhoneOfLayout | task/validators.py:32-39 | whitespace, an optional `+`, digits and whitespace form an accepted phone exactly when there are 10 to 15 digits, and those digits are what the check counts |
| Validators.ValidPhoneShape | task/validators.py:33-39 | once stripped, an accepted phone is digits only, except for a `+` that can only be its first character |
| Validators.DigitCountBounds | task/validators.py:39 | bare digits, or digits behind one `+`, are accepted exactly for 10 to 15 digits |
| Validators.RejectsInnerNonDigit | task/validators.py:35-39 | a stripped string with a non-digit anywhere after its first character is refused |
| Validators.PhoneOutOfBoundsExamples | task/validators.py:39 | 9 digits, 16 digits and the empty string are refused |
| Validators.PhoneInBoundsExamples | task/validators.py:39 | 10 and 15 digits are accepted |
| Validators.PhoneDocExamples | task/validators.py:24-30 | "1234567890" is accepted and "123abc" is refused |
| Validators.PhoneInternationalExample | task/validators.py:27-28 | "+380501234567" is accepted |
| Validators.PhonePlusExamples | task/validators.py:35-39 | a second `+`, or a `+` further in, is refused |
| Validators.PhoneSpaceExample | task/validators.py:33-39 | a number with an inner space is refused |
| Validators.PhoneSeparatorExamples | task/validators.py:33-39 | the hyphen and parenthesis forms shown in the format message are refused |
| Validators.ValidName | task/validators.py:66-91 | defines is_valid_name declaratively: once stripped, at least two characters, only letters and separators, letters at both ends, no two separators side by side; no ensures of its own, the loop is proved equal to it in the IsValidName row |
| Validators.IsValidName | task/validators.py:66-91 | the source's checks, including the loop with the previous-separator flag, return exactly the declarative name predicate |
| Validators.ValidNameSeparatorsBetweenLetters | task/validators.py:76-89 | in an accepted name both ends are letters and every separator stands between two letters |
| Validators.NameDocExamples | task/validators.py:57-62 | "John" and "O'Brien" are accepted |
| Validators.NameHyphenExample | task/validators.py:59-60 | "Mary-Jane" is accepted |
| Validators.NameDigitExamples | task/validators.py:63-73 | "123" and a name with a digit among its letters are refused |
| Validators.NameShapeExamples | task/validators.py:66-89 | a name that is too short, one with a leading separator and one with doubled separators are each refused |
| Validators.NameIgnoresSurroundingSpace | task/validators.py:66 | whitespace around a name does not change whether it is accepted |
| InputParser.ParseInput | task/input_parser.py:21-26 | defines parse_input; no ensures of its own, its properties are the ParseBlankIff, ParseTokens, ParseShape and ParseJoined rows |
| InputParser.ParseBlankIff | task/input_parser.py:21-22 | the command is empty exactly for a blank line, and then the arguments are empty too |
| InputParser.ParseTokens | task/input_parser.py:24-26 | for a non-blank line, the command is the first token lower-cased and the arguments are the other tokens in order |
| InputParser.ParseShape | task/input_parser.py:21-26 | the command holds no upper-case letter; every argument is non-empty and free of whitespace; for a non-blank line the command is too (for a blank line it is "") |
| InputParser.ParseJoined | task/input_parser.py:24-26 | parsing tokens joined by single spaces gives back the first token lower-cased and the others unchanged |
| InputParser.ParseExample | task/input_parser.py:14-16 | "add John 1234567890" parses to ("add", ["John", "1234567890"]) |
| Decorators.InputError | task/decorators.py:108-119 | a returned string passes through unchanged; ValueError becomes the missing-arguments text, KeyError("unknown_command") the unknown-command text, any other KeyError "Contact not found.", IndexError "Enter user name." |
| Decorators.InputErrorDistinguishesKinds | task/decorators.py:112-119 | each caught exception becomes one of four texts, and two exceptions give the same text exactly when they are the same kind of failure |
| Decorators.NormalizeArgs | task/decorators.py:59-64 | defines the normalisation; no ensures of its own, its properties are the NormalizeTwo, NormalizeOne and NormalizedArity rows |
| Decorators.Screen | task/decorators.py:58-80 | defines what the wrapper decides (raise, refuse with a message, or call the handler with the normalised list); no ensures of its own, its properties are the ScreenMissing, ScreenProceeds, ProceedPassesChecks and ScreenRefuses rows, and the ScreenArgs loop is proved equal to it |
| Decorators.RunCheck | task/decorators.py:74 | running a registered validator gives that validator's verdict |
| Decorators.FirstFailure | task/decorators.py:71-78 | the result is the first validator in registration order that refuses an argument within the list, or none when none refuses |
| Decorators.FirstFailureAt | task/decorators.py:71-78 | the first failure is the earliest failing position |
| Decorators.ScreenArgs | task/decorators.py:58-80 | the wrapper's normalisation, count check and validator loop decide exactly as the specification function `Screen` |
| Decorators.NormalizeTwo | task/decorators.py:63-64 | for a two-argument handler, two or more tokens become all but the last joined by spaces, then the last; exactly two pass unchanged |
| Decorators.NormalizeOne | task/decorators.py:61-62 | for a one-argument handler, one or more tokens become one space-joined argument |
| Decorators.ScreenMissing | task/decorators.py:67-68 | a ValueError is raised exactly when the normalised list is shorter than the required count, and input_error reports it as the missing-arguments text |
| Decorators.NormalizedArity | task/decorators.py:59-68 | with normalisation on, a list that passes the count check has exactly the required number of arguments |
| Decorators.ScreenProceeds | task/decorators.py:67-80 | the handler runs exactly when the count is met and no validator refuses, and it receives the normalised list |
| Decorators.ProceedPassesChecks | task/decorators.py:80 | whatever reaches the handler has passed the count check and every validator |
| Decorators.ScreenRefuses | task/decorators.py:71-78 | a refusal comes from the first refusing validator, with its custom message or "Invalid format for argument N." |
| ContactTable.SortByName | task/handlers.py:170 | defines the sort; its ensures keeps the length, and ordering, permutation and stability are the SortByNameSpec row |
| ContactTable.SortByNameSpec | task/handlers.py:170 | the sort orders entries by lower-cased name, keeps exactly the same entries, and is stable |
| ContactTable.MaxNameLen | task/handlers.py:173 | the width bounds every name length and is attained by one of them |
| ContactTable.TableLines | task/handlers.py:170-183 | defines the header, rule and rows; no ensures of its own, their layout is the TableShape row |
| ContactTable.ShowAll | task/handlers.py:166-185 | defines show_all; no ensures of its own, its properties are the ShowAllEmpty, SortedEntriesSpec, ColumnWidth, TableShape, SingleContact and ShowAllDocExample rows |
| ContactTable.ShowAllEmpty | task/handlers.py:166-167 | an empty store lists as "No contacts found." |
| ContactTable.SortedEntriesSpec | task/handlers.py:170 | the listed entries are exactly the stored (name, phone) pairs, sorted and stable in insertion order |
| ContactTable.ColumnWidth | task/handlers.py:173 | the name column is as wide as the longest stored name |
| ContactTable.RowLayoutOf | task/handlers.py:182 | a row holds the name left-aligned in the column, then " \| ", then the phone |
| ContactTable.TableShape | task/handlers.py:170-185 | the table has 2 + n lines: a rule of as many dashes as the column is wide, one row per sorted contact with the name left-aligned in the column, and a header that lines up with them when the longest name has at least four characters |
| ContactTable.SingleContact | task/handlers.py:176-185 | a one-contact store lists as header, rule and that contact's row, joined by newlines |
| ContactTable.ShortNameListing | task/handlers.py:176-177 | with only short names, the header "Name \| Phone" is not padded down and does not line up with the rows |
| ContactTable.ShowAllDocExample | task/handlers.py:157-163 | the documented listing of Alice and Bob: a five-wide column, "Name  \| Phone", "----- \| -----", then Alice and the padded "Bob   \| 2222222222" |
| Handlers.AddBody | task/handlers.py:51-53 | defines add_contact's body; no ensures of its own, its behaviour is the AddStores and AddDocExample rows |
| Handlers.ChangeBody | task/handlers.py:94-99 | defines change_contact's body with its bare KeyError; no ensures of its own, its behaviour is the ChangeUpdates and ChangeDocExample rows |
| Handlers.ShowPhoneBody | task/handlers.py:136-137 | defines show_phone's body (IndexError, KeyError); no ensures of its own, its behaviour is the PhoneLooksUp, MissingArguments and ShowPhoneDocExample rows |
| Handlers.Handle | task/handlers.py:14-137 | defines a decorated handler as screen, body and translation; its ensures is only that the store stays a well-formed dict, and its behaviour is the HandleKeepsScreened and per-handler rows |
| Handlers.Execute | task/handlers.py:205-229 | defines execute_command before colouring; its ensures is only that the store stays a well-formed dict, and its behaviour is the ExecuteWithArgs, EmptyCommand, NoArgumentCommands, UnknownCommandReply and StoreStaysScreened rows |
| Handlers.AddContact | task/handlers.py:14-53 | add on the mutable store gives the reply and the new store of the decorated handler |
| Handlers.ChangeContact | task/handlers.py:56-99 | change on the mutable store gives the reply and the new store of the decorated handler |
| Handlers.ShowPhone | task/handlers.py:102-137 | phone on the store gives the reply of the decorated handler and changes nothing |
| Handlers.ExecuteCommand | task/handlers.py:205-229 | dispatch on the mutable store gives the reply and the new store of the dispatch function |
| HandlerProperties.ExecuteWithArgs | task/handlers.py:208-227 | add, change and phone are passed the arguments and the store |
| HandlerProperties.AddStores | task/handlers.py:51-53 | add with a valid name and phone stores the phone token as typed under the name, leaves other names alone, and replies "Contact added." |
| HandlerProperties.PhoneLooksUp | task/handlers.py:136-137 | phone with a valid name replies with the stored token, or "Contact not found.", and leaves the store alone |
| HandlerProperties.AddThenPhone | task/handlers.py:51-52 | phone after add on the same name gives back exactly the token that was added |
| HandlerProperties.ChangeUpdates | task/handlers.py:94-99 | change overwrites a stored name's phone, keeps the name order and replies "Contact updated."; an absent name gives "Contact not found." with no change |
| HandlerProperties.ExecuteRefused | task/decorators.py:71-78 | when the screening refuses the arguments of add, change or phone, its message is the reply and the store is left alone |
| HandlerProperties.InvalidNameRefused | task/handlers.py:58-66 | an invalid name is reported first, whatever the phone, and the store is left alone |
| HandlerProperties.InvalidPhoneRefused | task/handlers.py:58-66 | with a valid name, an invalid phone gives the phone-format text and the store is left alone |
| HandlerProperties.PhoneInvalidName | task/handlers.py:104-109 | phone with an invalid name gives the name-format text |
| HandlerProperties.MissingArguments | task/decorators.py:67-68 | too few arguments give "Give me name and phone please."; for phone with no arguments this wins over the handler's IndexError |
| HandlerProperties.EmptyCommand | task/handlers.py:205-206 | the empty command replies with the empty string |
| HandlerProperties.NoArgumentCommands | task/handlers.py:219-226 | hello and all given any argument reply with the unexpected-arguments text naming the command |
| HandlerProperties.ExecuteOthersKeepStore | task/handlers.py:205-229 | every command other than add, change and phone leaves the store as it is |
| HandlerProperties.UnknownCommandReply | task/handlers.py:216-229 | a command word outside the table gives the unknown-command text and leaves the store alone |
| HandlerProperties.HandleKeepsScreened | task/handlers.py:14-137 | a decorated handler stores only a checked name and phone, and changes the store only when it confirms |
| HandlerProperties.StoreStaysScreened | task/handlers.py:205-229 | through any command, every stored name and phone stays checked, and only "Contact added." or "Contact updated." come with a changed store |
| HandlerProperties.ExampleSession | task/handlers.py:14-185 | a session run through the dispatcher, not taken from a docstring: add, change, phone and all on a fresh store give the confirmations, the new phone, and the one-row table |
| HandlerProperties.AddDocExample | task/handlers.py:43-48 | the documented add_contact example: "Contact added." and the store {"John": "1234567890"} |
| HandlerProperties.ChangeDocExample | task/handlers.py:86-91 | the documented change_contact example: "Contact updated." and the store {"John": "0987654321"} |
| HandlerProperties.ShowPhoneDocExample | task/handlers.py:128-131 | the documented show_phone example: John's phone "1234567890" |
| HandlerProperties.ShowPhoneMissingDocExample | task/handlers.py:132-133 | the documented show_phone of an absent name: the KeyError reaches the user as "Contact not found." and the store is unchanged |
| Fields.NewName | task/models/name.py:14-21 | defines Name(value); no ensures of its own, its properties are the NewNameSpec and NameKeepsSurroundingSpace rows |
| Fields.NewNameSpec | task/models/name.py:14-21 | a name is built exactly when the name check accepts it and is kept untrimmed; otherwise InvalidNameError; an accepted name is at least two letters or separators, with letters at both ends and no doubled separator |
| Fields.NameKeepsSurroundingSpace | task/models/name.py:21 | " John " is stored with its spaces, and "J" is refused |
| Fields.DigitsOnly | task/models/phone.py:34 | the regular-expression substitution leaves only digits and never lengthens |
| Fields.DigitsOnlyConcat | task/models/phone.py:34 | removing non-digits works piece by piece |
| Fields.NormalizeAccepted | task/models/phone.py:24-34 | on an accepted phone, removing non-digits removes exactly the surrounding whitespace and the leading `+` |
| Fields.NewPhone | task/models/phone.py:16-36 | defines Phone(value); no ensures of its own, its properties are the NewPhoneSpec, NormalizeAccepted, NewPhoneIdempotent and NewPhoneOfNormal rows |
| Fields.NewPhoneSpec | task/models/phone.py:16-25 | a phone is built exactly when the phone check accepts the input; it holds the digits the check counted, 10 to 15 of them; otherwise InvalidPhoneError |
| Fields.NewPhoneIdempotent | task/models/phone.py:16-36 | building a phone from a stored phone's value gives the same phone |
| Fields.NewPhoneOfNormal | task/models/phone.py:16-36 | a number that is already 10 to 15 digits is stored unchanged |
| Fields.InternationalPhoneExample | task/models/phone.py:34 | "+380501234567" is stored as "380501234567" |
| Fields.LocalPhoneExample | task/models/phone.py:34 | "0501234567" is stored unchanged |
| Records.Without | task/models/record.py:27 | defines the comprehension; its ensures is only that the list does not grow, and what it keeps is the WithoutMembers, WithoutConcat and WithoutAbsent rows |
| Records.WithoutMembers | task/models/record.py:27 | removal keeps exactly the phones whose value differs from the argument |
| Records.WithoutConcat | task/models/record.py:27 | removal works piece by piece, so the kept phones stay in order |
| Records.WithoutAbsent | task/models/record.py:27 | removing a value no phone has leaves the list unchanged |
| Records.FirstMatch | task/models/record.py:34-38 | the position found is the first phone with the value, or none when no phone has it |
| Records.Record.constructor | task/models/record.py:13-17 | a record from an accepted name has that name and no phones |
| Records.NewRecord | task/models/record.py:13-17 | a record is built exactly when the name is accepted; otherwise InvalidNameError |
| Records.Record.AddPhone | task/models/record.py:19-22 | an accepted phone is appended normalised, duplicates allowed; a refused one is its error and the list is unchanged |
| Records.Record.RemovePhone | task/models/record.py:24-27 | the list becomes the phones whose value differs from the argument, in order, and nothing fails |
| Records.Record.EditPhone | task/models/record.py:29-41 | only the first match is replaced, at its index; no match is PhoneNotFoundError naming the phone; a refused new phone is its error; on either error the list is unchanged |
| Records.Record.FindPhone | task/models/record.py:43-50 | the argument is returned exactly when some stored phone equals it, otherwise none |
| Records.Describe | task/models/record.py:55 | defines the text of str(record); no ensures of its own, its shape is the DescribeAppend row |
| Records.Record.ToString | task/models/record.py:52-55 | str(record) is Describe of the record's name and phones; no ensures of its own |
| Records.DescribeAppend | task/models/record.py:52-55 | a record shows its name, then its phone values in order separated by "; " |
| AddressBooks.AddressBook.AddRecord | task/models/address_book.py:11-14 | the record is stored under its own name, replacing any record there |
| AddressBooks.AddressBook.Find | task/models/address_book.py:16-19 | the record stored under the name, which carries that name, or none, through `Dicts.Get` (so the GetPut and GetRemove rows apply); nothing changes |
| AddressBooks.AddressBook.Delete | task/models/address_book.py:21-25 | the name's record goes if there is one; an absent name changes nothing |
| Dicts.Get | task/models/address_book.py:19 | dict.get: a value exactly when the key is stored, and then the stored value |
| Dicts.Put | task/models/address_book.py:14 | d[k] = v: the map gets the new value at k, and a new key is appended to the key order while an existing one keeps its place |
| Dicts.Remove | task/models/address_book.py:24-25 | del d[k]: k leaves the map and the key order, the other keys keep their order; an absent key changes nothing |
| Dicts.GetPut | task/models/address_book.py:14 | after storing under a key, finding the key gives the stored value and every other key reads as before |
| Dicts.GetRemove | task/models/address_book.py:24-25 | after deleting a key it is not found, and every other key reads as before |
| AddressBooks.ShowAndFind | task/models/record.py:43-55 | a record with two phones shows both in order, and find_phone finds the second |
| AddressBooks.Listing | test_address_book_package.py:28-29 | the printed listing has one line per stored name, in the book's order, reading the name, ": " and the text of its record |
| AddressBooks.Session | test_address_book_package.py:9-53 | for two distinct accepted names and four numbers already in 10-to-15-digit form: both names are in the book in order and the listing shows the first record with its two numbers and the second with its one; after the edit the first record shows the new number first; its second number is found; after the delete only the first name is left, and the listing shows it with its edited numbers |
| AddressBooks.ExampleSession | test_address_book_package.py:9-53 | the listing first reads "John: Contact name: John, phones: 0501234567; 0505555555" and "Jane: Contact name: Jane, phones: 0987654321"; after the edit John's record reads "Contact name: John, phones: 0111222333; 0505555555"; 0505555555 is found; Jane is gone and the listing is John's edited line alone |

## Left out

- task/main.py: the interactive read loop, prompting, printing and the close/exit commands are console I/O.
- Colour: `colored_output`, task/messages.py and the output formatter only add ANSI styling. Replies are modelled as the plain texts of task/message_texts.py, before colouring.
- `functools.wraps` and decorator stacking: these are written as an explicit composition of screen, body and translation.
- Unicode: `isdigit`, `isalpha`, `strip`, `split`, `lower` and the `\D` pattern are modelled over ASCII, with Python's ASCII whitespace set.
- Validators: `validate_args` accepts any callables in a dict keyed by argument index, each index once. The model allows only the two registered checks (`Decorators.Check`: the name check and the phone check), in a list of (index, check) pairs that could repeat an index; the handlers register each index once, in ascending order, as the source's dicts iterate.
- Validator indices are natural numbers. Python's negative indices into the argument list are not modelled.
- `Phone._normalize`'s `isinstance` check: every value reaching it is a string.
- task/models/exceptions.py: the exception hierarchy is the `Fields.ModelError` datatype; the base classes carry no behaviour.
- task/models/field.py: the value holder is folded into the `Name` and `Phone` datatypes.
- task/models/__init__.py holds re-exports only.
- The hyphen and parenthesis phone formats advertised by the format message are rejected by the code and are not modelled as accepted.
- Python's `sorted` is modelled as a stable insertion sort. The model states the properties `sorted` guarantees: ordered by key, a permutation, stable.
- `AddressBook` is a `UserDict`; only `data` and the three methods are modelled, not the rest of the mapping interface.
- Records.Record.constructor: it takes a `Name` that passed the name check, instead of a string. Building a record from a string, with the check and its error, is `Records.NewRecord`.
- AddressBooks.AddressBook.Find: it returns the stored record by reference. The aliasing that lets a caller edit a stored record in place is used by `AddressBooks.Session`, but no separate lemma states it.
- The demo script's output itself (the `print` calls, headings and separator lines) is I/O and is not modelled. The texts it prints are stated: both listings, John's record after the edit and the found number. `AddressBooks.Session` covers only two distinct accepted names and numbers already in normalised form; with equal names the second `add_record` would overwrite the first, an invalid name raises, and a number such as "+380501234567" would be shown as stored, not as typed.
