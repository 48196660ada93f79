/**
 * What the command pipeline promises about the store and the replies: adding and looking up,
 * changing, the refusals that leave the store alone, and the dispatch of the command word.
 */
module HandlerProperties {
  import opened Wrappers
  import opened Text
  import opened Dicts
  import opened Validators
  import opened Decorators
  import opened Handlers
  import MessageTexts
  import ContactTable

  /** add, change and phone are dispatched to their decorated handlers with the arguments as given. */
  lemma ExecuteWithArgs(command: string, args: seq<string>, d: Dict<string>)
    requires d.Valid()
    requires command == "add" || command == "change" || command == "phone"
    ensures Execute(command, args, d) == Handle(Routes()[command].handler, args, d)
  {
  }

  /** Once the screening lets a call through, the handler body runs on the normalised arguments. */
  lemma HandleProceeds(h: Handler, args: seq<string>, d: Dict<string>, normalized: seq<string>)
    requires d.Valid()
    requires Screen(ContractOf(h), args) == Proceed(normalized)
    ensures Handle(h, args, d) == Reply(InputError(Body(h, normalized, d).outcome), Body(h, normalized, d).store)
  {
  }

  /** add on arguments that pass the screening as a name and a phone stores the phone under the name. */
  lemma AddScreened(args: seq<string>, name: string, phone: string, d: Dict<string>)
    requires d.Valid()
    requires Screen(NameAndPhone(), args) == Proceed([name, phone])
    ensures Execute("add", args, d) == Reply(MessageTexts.ContactAdded, Put(d, name, phone))
  {
    ExecuteWithArgs("add", args, d);
    HandleProceeds(Add, args, d, [name, phone]);
  }

  /** change on arguments that pass the screening overwrites a stored name, or reports it missing. */
  lemma ChangeScreened(args: seq<string>, name: string, phone: string, d: Dict<string>)
    requires d.Valid()
    requires Screen(NameAndPhone(), args) == Proceed([name, phone])
    ensures Execute("change", args, d) ==
      if name in d.values then Reply(MessageTexts.ContactUpdated, Put(d, name, phone))
      else Reply(MessageTexts.InputErrorContactNotFound, d)
  {
    ExecuteWithArgs("change", args, d);
    HandleProceeds(Change, args, d, [name, phone]);
  }

  /** A valid name is never the key "unknown_command", whose KeyError input_error would report as
      an unknown command rather than a missing contact. */
  lemma NotUnknownCommandKey(name: string)
    requires ValidName(name)
    ensures name != "unknown_command"
  {
    var key := "unknown_command";
    StripTrimmed(key);
    assert !IsAlpha(key[7]) && !IsSeparator(key[7]);
  }

  /** phone on arguments that pass the screening as a name looks the name up. */
  lemma PhoneScreened(args: seq<string>, name: string, d: Dict<string>)
    requires d.Valid()
    requires Screen(NameOnly(), args) == Proceed([name]) && ValidName(name)
    ensures Execute("phone", args, d) ==
      Reply(if name in d.values then d.values[name] else MessageTexts.InputErrorContactNotFound, d)
  {
    ExecuteWithArgs("phone", args, d);
    HandleProceeds(Phone, args, d, [name]);
    NotUnknownCommandKey(name);
  }

  /** Arguments that normalise to a valid name and phone pass add's and change's screening. */
  lemma ScreenNormalizedPair(args: seq<string>, name: string, phone: string)
    requires NormalizeArgs(NameAndPhone(), args) == [name, phone]
    requires ValidName(name) && IsValidPhone(phone)
    ensures Screen(NameAndPhone(), args) == Proceed([name, phone])
  {
    FirstFailureAt(NameAndPhone().validators, [name, phone], 2);
  }

  /** Arguments that normalise to a valid name pass phone's screening. */
  lemma ScreenNormalizedName(args: seq<string>, name: string)
    requires NormalizeArgs(NameOnly(), args) == [name] && ValidName(name)
    ensures Screen(NameOnly(), args) == Proceed([name])
  {
    FirstFailureAt(NameOnly().validators, [name], 1);
  }

  /** Name tokens followed by a phone token pass add's and change's screening as the name (the
      tokens joined by spaces) and the phone, when both are valid. */
  lemma ScreenNameAndPhone(words: seq<string>, name: string, phone: string)
    requires |words| > 0 && name == Join(words, " ")
    requires ValidName(name) && IsValidPhone(phone)
    ensures Screen(NameAndPhone(), words + [phone]) == Proceed([name, phone])
  {
    var args := words + [phone];
    assert args[..|args| - 1] == words;
    NormalizeTwo(NameAndPhone(), args);
    ScreenNormalizedPair(args, name, phone);
  }

  /** Name tokens pass phone's screening as the tokens joined by spaces, when that name is valid. */
  lemma ScreenName(words: seq<string>, name: string)
    requires |words| > 0 && name == Join(words, " ") && ValidName(name)
    ensures Screen(NameOnly(), words) == Proceed([name])
  {
    NormalizeOne(NameOnly(), words);
    ScreenNormalizedName(words, name);
  }

  /** add with a valid name (one or more tokens, joined by spaces) and a valid phone stores the
      phone token as typed under the name, inserting or overwriting, leaves every other name as it
      was, and confirms. */
  lemma AddStores(words: seq<string>, name: string, phone: string, d: Dict<string>)
    requires d.Valid()
    requires |words| > 0 && name == Join(words, " ")
    requires ValidName(name) && IsValidPhone(phone)
    ensures var r := Execute("add", words + [phone], d);
      && r.text == MessageTexts.ContactAdded
      && Get(r.store, name) == Some(phone)
      && (forall other :: other != name ==> Get(r.store, other) == Get(d, other))
  {
    ScreenNameAndPhone(words, name, phone);
    AddScreened(words + [phone], name, phone, d);
    GetPut(d, name, phone, name);
    forall other | other != name ensures Get(Put(d, name, phone), other) == Get(d, other) {
      GetPut(d, name, phone, other);
    }
  }

  /** phone with a valid name replies with the stored phone token, or "Contact not found." when the
      name is not stored, and does not touch the store. */
  lemma PhoneLooksUp(words: seq<string>, name: string, d: Dict<string>)
    requires d.Valid()
    requires |words| > 0 && name == Join(words, " ") && ValidName(name)
    ensures Execute("phone", words, d) ==
      Reply(if name in d.values then d.values[name] else MessageTexts.InputErrorContactNotFound, d)
  {
    ScreenName(words, name);
    PhoneScreened(words, name, d);
  }

  /** add followed by phone on the same name gives back exactly the phone token that was added. */
  lemma AddThenPhone(words: seq<string>, name: string, phone: string, d: Dict<string>)
    requires d.Valid()
    requires |words| > 0 && name == Join(words, " ")
    requires ValidName(name) && IsValidPhone(phone)
    ensures var added := Execute("add", words + [phone], d).store;
      Execute("phone", words, added) == Reply(phone, added)
  {
    ScreenNameAndPhone(words, name, phone);
    AddScreened(words + [phone], name, phone, d);
    PhoneLooksUp(words, name, Put(d, name, phone));
  }

  /** change with a valid name and phone overwrites a stored name's phone, keeping the order of the
      names, and confirms; a name not in the store gives "Contact not found." and no change. */
  lemma ChangeUpdates(words: seq<string>, name: string, phone: string, d: Dict<string>)
    requires d.Valid()
    requires |words| > 0 && name == Join(words, " ")
    requires ValidName(name) && IsValidPhone(phone)
    ensures var r := Execute("change", words + [phone], d);
      && (name in d.values ==> r == Reply(MessageTexts.ContactUpdated, Put(d, name, phone)))
      && (name in d.values ==> r.store.keys == d.keys)
      && (name !in d.values ==> r == Reply(MessageTexts.InputErrorContactNotFound, d))
  {
    ScreenNameAndPhone(words, name, phone);
    ChangeScreened(words + [phone], name, phone, d);
  }

  /** A refusal by the screening is the reply, and the store is left alone. */
  lemma ExecuteRefused(command: string, args: seq<string>, d: Dict<string>, message: string)
    requires d.Valid()
    requires command == "add" || command == "change" || command == "phone"
    requires Screen(ContractOf(Routes()[command].handler), args) == Refuse(message)
    ensures Execute(command, args, d) == Reply(message, d)
  {
    ExecuteWithArgs(command, args, d);
  }

  /** add and change check the name first: an invalid name gives the name-format text whatever the
      phone, and the store is left alone. */
  lemma InvalidNameRefused(command: string, args: seq<string>, d: Dict<string>)
    requires d.Valid()
    requires command == "add" || command == "change"
    requires |args| >= 2 && !ValidName(Join(args[..|args| - 1], " "))
    ensures Execute(command, args, d) == Reply(MessageTexts.InvalidNameFormat, d)
  {
    NormalizeTwo(NameAndPhone(), args);
    var n := NormalizeArgs(NameAndPhone(), args);
    FirstFailureAt(NameAndPhone().validators, n, 0);
    ExecuteRefused(command, args, d, MessageTexts.InvalidNameFormat);
  }

  /** With a valid name, an invalid phone gives the phone-format text and the store is left alone. */
  lemma InvalidPhoneRefused(command: string, args: seq<string>, d: Dict<string>)
    requires d.Valid()
    requires command == "add" || command == "change"
    requires |args| >= 2 && ValidName(Join(args[..|args| - 1], " ")) && !IsValidPhone(args[|args| - 1])
    ensures Execute(command, args, d) == Reply(MessageTexts.InvalidPhoneFormat, d)
  {
    NormalizeTwo(NameAndPhone(), args);
    var n := NormalizeArgs(NameAndPhone(), args);
    FirstFailureAt(NameAndPhone().validators, n, 1);
    ExecuteRefused(command, args, d, MessageTexts.InvalidPhoneFormat);
  }

  /** Arguments that normalise to an invalid name are refused by phone's screening. */
  lemma ScreenRefusedName(args: seq<string>, name: string)
    requires NormalizeArgs(NameOnly(), args) == [name] && !ValidName(name)
    ensures Screen(NameOnly(), args) == Refuse(MessageTexts.InvalidNameFormat)
  {
    FirstFailureAt(NameOnly().validators, [name], 0);
  }

  /** phone with an invalid name (its tokens joined by spaces) gives the name-format text. */
  lemma PhoneInvalidName(args: seq<string>, name: string, d: Dict<string>)
    requires d.Valid()
    requires |args| >= 1 && name == Join(args, " ") && !ValidName(name)
    ensures Execute("phone", args, d) == Reply(MessageTexts.InvalidNameFormat, d)
  {
    NormalizeOne(NameOnly(), args);
    ScreenRefusedName(args, name);
    ExecuteRefused("phone", args, d, MessageTexts.InvalidNameFormat);
  }

  /** Too few arguments give the missing-arguments text and leave the store alone; for phone this
      is what an empty argument list gives, since the count is checked before the handler's
      args[0] could raise IndexError. */
  lemma MissingArguments(command: string, args: seq<string>, d: Dict<string>)
    requires d.Valid()
    requires ((command == "add" || command == "change") && |args| < 2) || (command == "phone" && |args| == 0)
    ensures Execute(command, args, d) == Reply(MessageTexts.InputErrorMissingArgs, d)
  {
  }

  /** The empty command replies with the empty string. */
  lemma EmptyCommand(args: seq<string>, d: Dict<string>)
    requires d.Valid()
    ensures Execute("", args, d) == Reply("", d)
  {
  }

  /** hello and all take no arguments: given any, they name the command in the refusal. */
  lemma NoArgumentCommands(command: string, args: seq<string>, d: Dict<string>)
    requires d.Valid()
    requires command == "hello" || command == "all"
    requires |args| > 0
    ensures Execute(command, args, d) == Reply(MessageTexts.UnexpectedArguments(command), d)
  {
  }

  /** A command word outside the table gives the unknown-command text and leaves the store alone. */
  lemma UnknownCommandReply(command: string, args: seq<string>, d: Dict<string>)
    requires d.Valid()
    requires command !in {"", "hello", "add", "change", "phone", "all"}
    ensures Execute(command, args, d) == Reply(MessageTexts.UnknownCommand, d)
  {
  }

  /** Every stored name passed the name check and every stored phone the phone check. */
  ghost predicate Screened(d: Dict<string>)
  {
    forall name :: name in d.values ==> ValidName(name) && IsValidPhone(d.values[name])
  }

  /** Every command other than add, change and phone leaves the store as it is. */
  lemma ExecuteOthersKeepStore(command: string, args: seq<string>, d: Dict<string>)
    requires d.Valid()
    requires command != "add" && command != "change" && command != "phone"
    ensures Execute(command, args, d).store == d
  {
  }

  /** A handler body reached through the screening stores only the name and phone that passed
      it, and changes the store only when it confirms. */
  lemma BodyKeepsScreened(h: Handler, args: seq<string>, d: Dict<string>, n: seq<string>)
    requires d.Valid() && Screen(ContractOf(h), args) == Proceed(n)
    ensures Screened(d) ==> Screened(Body(h, n, d).store)
    ensures Body(h, n, d).store == d || Body(h, n, d).outcome == Returned(MessageTexts.ContactAdded)
      || Body(h, n, d).outcome == Returned(MessageTexts.ContactUpdated)
  {
    var c := ContractOf(h);
    ProceedPassesChecks(c, args, n);
    if h != Phone && |n| == 2 {
      assert !Fails(c.validators[0], n) && !Fails(c.validators[1], n);
      assert ValidName(n[0]) && IsValidPhone(n[1]);
      PutKeepsScreened(d, n[0], n[1]);
    }
  }

  /** Storing a checked name with a checked phone keeps every entry of the store checked. */
  lemma PutKeepsScreened(d: Dict<string>, name: string, phone: string)
    requires d.Valid() && ValidName(name) && IsValidPhone(phone)
    ensures Screened(d) ==> Screened(Put(d, name, phone))
  {
  }

  /** A decorated handler stores only a checked name and phone, and changes the store only when
      it confirms. */
  lemma HandleKeepsScreened(h: Handler, args: seq<string>, d: Dict<string>)
    requires d.Valid()
    ensures var r := Handle(h, args, d);
      && (Screened(d) ==> Screened(r.store))
      && (r.store == d || r.text == MessageTexts.ContactAdded || r.text == MessageTexts.ContactUpdated)
  {
    match Screen(ContractOf(h), args) {
      case Raise(e) =>
      case Refuse(m) =>
      case Proceed(n) =>
        BodyKeepsScreened(h, args, d, n);
    }
  }

  /** Only checked names and phones ever enter the store, and the store changes only when add or
      change confirm: every other reply leaves it as it was. */
  lemma StoreStaysScreened(command: string, args: seq<string>, d: Dict<string>)
    requires d.Valid()
    ensures var r := Execute(command, args, d);
      && (Screened(d) ==> Screened(r.store))
      && (r.store == d || r.text == MessageTexts.ContactAdded || r.text == MessageTexts.ContactUpdated)
  {
    if command == "add" || command == "change" || command == "phone" {
      ExecuteWithArgs(command, args, d);
      HandleKeepsScreened(Routes()[command].handler, args, d);
    } else {
      ExecuteOthersKeepStore(command, args, d);
    }
  }

  /** The two phone tokens of the example session pass the phone check. */
  lemma SessionPhones()
    ensures IsValidPhone("0501234567") && IsValidPhone("0509999999")
  {
    assert IsValidPhone("0501234567") by { StripTrimmed("0501234567"); }
    assert IsValidPhone("0509999999") by { StripTrimmed("0509999999"); }
  }

  /** The three lines of the listing of the one contact of the example session. */
  lemma SessionLines()
    ensures ContactTable.Header(4) == "Name | Phone"
    ensures ContactTable.Rule(4) == "---- | -----"
    ensures ContactTable.Row(("John", "0509999999"), 4) == "John | 0509999999"
  {
    assert LJust("Name", 4) == "Name";
    assert LJust("John", 4) == "John";
    assert Repeat('-', 4) == "----";
    assert Repeat('-', 5) == "-----";
  }

  /** The listing of the one contact of the example session. */
  lemma SessionListing()
    ensures ContactTable.ShowAll(Put(Empty(), "John", "0509999999")) ==
      "Name | Phone" + "\n" + "---- | -----" + "\n" + "John | 0509999999"
  {
    ContactTable.SingleContact("John", "0509999999");
    SessionLines();
  }

  /** First step of the example session: add John to a fresh store. */
  lemma SessionAdd()
    ensures Execute("add", ["John", "0501234567"], Empty()) ==
      Reply(MessageTexts.ContactAdded, Put(Empty(), "John", "0501234567"))
  {
    NameDocExamples();
    SessionPhones();
    ScreenNormalizedPair(["John", "0501234567"], "John", "0501234567");
    AddScreened(["John", "0501234567"], "John", "0501234567", Empty());
  }

  /** Second step: change John's phone. */
  lemma SessionChange()
    ensures Execute("change", ["John", "0509999999"], Put(Empty(), "John", "0501234567")) ==
      Reply(MessageTexts.ContactUpdated, Put(Empty(), "John", "0509999999"))
  {
    NameDocExamples();
    SessionPhones();
    var d1: Dict<string> := Put(Empty(), "John", "0501234567");
    assert "John" in d1.values;
    PutPut(Empty(), "John", "0501234567", "0509999999");
    ScreenNormalizedPair(["John", "0509999999"], "John", "0509999999");
    ChangeScreened(["John", "0509999999"], "John", "0509999999", d1);
  }

  /** Third step: look John's phone up. */
  lemma SessionPhone()
    ensures Execute("phone", ["John"], Put(Empty(), "John", "0509999999")) ==
      Reply("0509999999", Put(Empty(), "John", "0509999999"))
  {
    NameDocExamples();
    var d2: Dict<string> := Put(Empty(), "John", "0509999999");
    ScreenNormalizedName(["John"], "John");
    PhoneScreened(["John"], "John", d2);
  }

  /** The example session on a fresh store: add John, change his phone, look it up, list all. */
  lemma ExampleSession()
    ensures var r1 := Execute("add", ["John", "0501234567"], Empty());
      var r2 := Execute("change", ["John", "0509999999"], r1.store);
      var r3 := Execute("phone", ["John"], r2.store);
      var r4 := Execute("all", [], r3.store);
      && r1.text == MessageTexts.ContactAdded
      && r2.text == MessageTexts.ContactUpdated
      && r3.text == "0509999999"
      && r4.text == "Name | Phone" + "\n" + "---- | -----" + "\n" + "John | 0509999999"
  {
    SessionAdd();
    SessionChange();
    SessionPhone();
    SessionListing();
  }

  // ---------------------------------------------------------------- the documented examples

  /** The phone tokens of the handlers' documented examples pass the phone check. */
  lemma DocPhones()
    ensures IsValidPhone("1234567890") && IsValidPhone("0987654321")
  {
    PhoneDocExamples();
    assert IsValidPhone("0987654321") by { StripTrimmed("0987654321"); }
  }

  /** The documented example of add_contact: a fresh store becomes {"John": "1234567890"}. */
  lemma AddDocExample()
    ensures Handle(Add, ["John", "1234567890"], Empty()) ==
      Reply(MessageTexts.ContactAdded, Put(Empty(), "John", "1234567890"))
    ensures Put(Empty(), "John", "1234567890").values == map["John" := "1234567890"]
  {
    NameDocExamples();
    DocPhones();
    ScreenNormalizedPair(["John", "1234567890"], "John", "1234567890");
    HandleProceeds(Add, ["John", "1234567890"], Empty(), ["John", "1234567890"]);
  }

  /** The documented example of change_contact: {"John": "1234567890"} becomes
      {"John": "0987654321"}. */
  lemma ChangeDocExample()
    ensures Handle(Change, ["John", "0987654321"], Put(Empty(), "John", "1234567890")) ==
      Reply(MessageTexts.ContactUpdated, Put(Empty(), "John", "0987654321"))
    ensures Put(Empty(), "John", "0987654321").values == map["John" := "0987654321"]
  {
    NameDocExamples();
    DocPhones();
    var d: Dict<string> := Put(Empty(), "John", "1234567890");
    assert "John" in d.values;
    PutPut(Empty(), "John", "1234567890", "0987654321");
    ScreenNormalizedPair(["John", "0987654321"], "John", "0987654321");
    HandleProceeds(Change, ["John", "0987654321"], d, ["John", "0987654321"]);
  }

  /** The documented example of show_phone on {"John": "1234567890"}: John's phone is returned. */
  lemma ShowPhoneDocExample()
    ensures var d := Put(Empty(), "John", "1234567890");
      Handle(Phone, ["John"], d) == Reply("1234567890", d)
  {
    NameDocExamples();
    var d: Dict<string> := Put(Empty(), "John", "1234567890");
    ScreenNormalizedName(["John"], "John");
    HandleProceeds(Phone, ["John"], d, ["John"]);
  }

  /** The name of the documented look-up of a contact that is not stored passes the name check. */
  lemma JaneName()
    ensures ValidName("Jane")
  {
    StripTrimmed("Jane");
  }

  /** The documented example of show_phone for a name not stored: the KeyError it raises reaches
      the user as "Contact not found.". */
  lemma ShowPhoneMissingDocExample()
    ensures var d := Put(Empty(), "John", "1234567890");
      Handle(Phone, ["Jane"], d) == Reply(MessageTexts.InputErrorContactNotFound, d)
  {
    JaneName();
    var d: Dict<string> := Put(Empty(), "John", "1234567890");
    assert "Jane" !in d.values;
    ScreenNormalizedName(["Jane"], "Jane");
    HandleProceeds(Phone, ["Jane"], d, ["Jane"]);
  }
}
