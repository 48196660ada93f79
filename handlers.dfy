/**
 * The command handlers of the contact bot and the dispatch table that routes a parsed command
 * to them. Each handler is the composition of its stages: validate_args's screening, the
 * handler body, and input_error's translation of what the body raised.
 */
module Handlers {
  import opened Dicts
  import opened Decorators
  import MessageTexts
  import ContactTable

  /** The bot's contact store: the dict from names to phone tokens that every handler receives. */
  class Contacts {
    var entries: Dict<string>

    ghost predicate Valid()
      reads this
    {
      entries.Valid()
    }

    /** contacts = {} */
    constructor ()
      ensures Valid() && entries == Empty()
    {
      entries := Empty();
    }
  }

  // ---------------------------------------------------------------- decorator parameters

  /** validate_args for add and change: two arguments, a name then a phone, normalised. */
  function NameAndPhone(): ArgContract
  {
    ArgContract(2, [(0, NameFormat), (1, PhoneFormat)],
                map[0 := MessageTexts.InvalidNameFormat, 1 := MessageTexts.InvalidPhoneFormat], true)
  }

  /** validate_args for phone: one argument, a name, normalised. */
  function NameOnly(): ArgContract
  {
    ArgContract(1, [(0, NameFormat)], map[0 := MessageTexts.InvalidNameFormat], true)
  }

  // ---------------------------------------------------------------- handler bodies

  /** The handlers that take the arguments and the store. */
  datatype Handler = Add | Change | Phone

  /** What a handler body ends in, with the store as it leaves it. */
  datatype Step = Step(outcome: Outcome, store: Dict<string>)

  /** The body of add_contact: unpack exactly two arguments, store the phone under the name. */
  function AddBody(args: seq<string>, d: Dict<string>): (r: Step)
    requires d.Valid()
  {
    if |args| != 2 then Step(Raised(ValueError), d)
    else Step(Returned(MessageTexts.ContactAdded), Put(d, args[0], args[1]))
  }

  /** The body of change_contact: as add, but a name not in the store raises a bare KeyError. */
  function ChangeBody(args: seq<string>, d: Dict<string>): (r: Step)
    requires d.Valid()
  {
    if |args| != 2 then Step(Raised(ValueError), d)
    else if args[0] !in d.values then Step(Raised(KeyError([])), d)
    else Step(Returned(MessageTexts.ContactUpdated), Put(d, args[0], args[1]))
  }

  /** The body of show_phone: args[0] (IndexError when empty), then contacts[name] (KeyError). */
  function ShowPhoneBody(args: seq<string>, d: Dict<string>): (r: Outcome)
  {
    if |args| == 0 then Raised(IndexError)
    else if args[0] in d.values then Returned(d.values[args[0]])
    else Raised(KeyError([args[0]]))
  }

  function ContractOf(h: Handler): ArgContract
  {
    match h
    case Add => NameAndPhone()
    case Change => NameAndPhone()
    case Phone => NameOnly()
  }

  function Body(h: Handler, args: seq<string>, d: Dict<string>): Step
    requires d.Valid()
  {
    match h
    case Add => AddBody(args, d)
    case Change => ChangeBody(args, d)
    case Phone => Step(ShowPhoneBody(args, d), d)
  }

  /** What a call returns to the user, and the store it leaves behind. */
  datatype Reply = Reply(text: string, store: Dict<string>)

  /** A decorated handler: validate_args screens the arguments; the body runs only when they pass;
      input_error turns whatever was raised, by the screening or the body, into its text. */
  function Handle(h: Handler, args: seq<string>, d: Dict<string>): (r: Reply)
    requires d.Valid()
    ensures r.store.Valid()
  {
    match Screen(ContractOf(h), args)
    case Raise(e) => Reply(InputError(Raised(e)), d)
    case Refuse(message) => Reply(message, d)
    case Proceed(normalized) =>
      var step := Body(h, normalized, d);
      Reply(InputError(step.outcome), step.store)
  }

  // ---------------------------------------------------------------- dispatch

  /** An entry of the dispatch table with its calling convention: no arguments ("none"), the
      store alone ("contacts"), or the arguments and the store ("args_contacts"). */
  datatype Route = Greet | ListAll | WithArgs(handler: Handler)

  /** The dispatch table of execute_command. */
  function Routes(): map<string, Route>
  {
    map["hello" := Greet, "add" := WithArgs(Add), "change" := WithArgs(Change),
        "phone" := WithArgs(Phone), "all" := ListAll]
  }

  /** execute_command, before colouring: "" for an empty command; a command of the table called by
      its convention, where the two that take nothing refuse arguments; the unknown-command text
      for anything else, from the KeyError("unknown_command") that input_error translates. */
  function Execute(command: string, args: seq<string>, d: Dict<string>): (r: Reply)
    requires d.Valid()
    ensures r.store.Valid()
  {
    if |command| == 0 then Reply("", d)
    else if command in Routes() then
      match Routes()[command]
      case Greet =>
        if |args| > 0 then Reply(MessageTexts.UnexpectedArguments(command), d)
        else Reply(MessageTexts.HelloMessage, d)
      case ListAll =>
        if |args| > 0 then Reply(MessageTexts.UnexpectedArguments(command), d)
        else Reply(ContactTable.ShowAll(d), d)
      case WithArgs(h) => Handle(h, args, d)
    else Reply(InputError(Raised(KeyError(["unknown_command"]))), d)
  }

  // ---------------------------------------------------------------- the handlers on the store

  /** add_contact on the bot's store. */
  method AddContact(args: seq<string>, contacts: Contacts) returns (text: string)
    requires contacts.Valid()
    modifies contacts
    ensures contacts.Valid()
    ensures Reply(text, contacts.entries) == Handle(Add, args, old(contacts.entries))
  {
    var gate := ScreenArgs(NameAndPhone(), args);
    match gate {
      case Raise(e) =>
        text := InputError(Raised(e));
      case Refuse(message) =>
        text := message;
      case Proceed(normalized) =>
        if |normalized| != 2 {
          text := InputError(Raised(ValueError));
        } else {
          var name, phone := normalized[0], normalized[1];
          contacts.entries := Put(contacts.entries, name, phone);
          text := MessageTexts.ContactAdded;
        }
    }
  }

  /** change_contact on the bot's store. */
  method ChangeContact(args: seq<string>, contacts: Contacts) returns (text: string)
    requires contacts.Valid()
    modifies contacts
    ensures contacts.Valid()
    ensures Reply(text, contacts.entries) == Handle(Change, args, old(contacts.entries))
  {
    var gate := ScreenArgs(NameAndPhone(), args);
    match gate {
      case Raise(e) =>
        text := InputError(Raised(e));
      case Refuse(message) =>
        text := message;
      case Proceed(normalized) =>
        if |normalized| != 2 {
          text := InputError(Raised(ValueError));
        } else {
          var name, phone := normalized[0], normalized[1];
          if name !in contacts.entries.values {
            text := InputError(Raised(KeyError([])));
          } else {
            contacts.entries := Put(contacts.entries, name, phone);
            text := MessageTexts.ContactUpdated;
          }
        }
    }
  }

  /** show_phone on the bot's store; it only reads. */
  method ShowPhone(args: seq<string>, contacts: Contacts) returns (text: string)
    requires contacts.Valid()
    ensures Reply(text, contacts.entries) == Handle(Phone, args, contacts.entries)
  {
    var gate := ScreenArgs(NameOnly(), args);
    match gate {
      case Raise(e) =>
        text := InputError(Raised(e));
      case Refuse(message) =>
        text := message;
      case Proceed(normalized) =>
        if |normalized| == 0 {
          text := InputError(Raised(IndexError));
        } else {
          var name := normalized[0];
          if name in contacts.entries.values {
            text := contacts.entries.values[name];
          } else {
            text := InputError(Raised(KeyError([name])));
          }
        }
    }
  }

  /** execute_command on the bot's store. */
  method ExecuteCommand(command: string, args: seq<string>, contacts: Contacts) returns (text: string)
    requires contacts.Valid()
    modifies contacts
    ensures contacts.Valid()
    ensures Reply(text, contacts.entries) == Execute(command, args, old(contacts.entries))
  {
    if |command| == 0 {
      return "";
    }
    if command in Routes() {
      match Routes()[command] {
        case Greet =>
          if |args| > 0 {
            return MessageTexts.UnexpectedArguments(command);
          }
          return MessageTexts.HelloMessage;
        case ListAll =>
          if |args| > 0 {
            return MessageTexts.UnexpectedArguments(command);
          }
          return ContactTable.ShowAll(contacts.entries);
        case WithArgs(h) =>
          match h {
            case Add => text := AddContact(args, contacts);
            case Change => text := ChangeContact(args, contacts);
            case Phone => text := ShowPhone(args, contacts);
          }
      }
    } else {
      text := InputError(Raised(KeyError(["unknown_command"])));
    }
  }
}
