/**
 * The two decorators that shape every command handler, written as explicit stages:
 * argument normalisation and validation (validate_args) and the translation of raised
 * errors into messages (input_error).
 */
module Decorators {
  import opened Wrappers
  import opened Text
  import opened Validators
  import MessageTexts

  // ---------------------------------------------------------------- input_error

  /** The exceptions a handler can raise that input_error catches. A KeyError carries its
      arguments: none for a bare `raise KeyError`, the missing key for a failed lookup. */
  datatype Exception = ValueError | KeyError(args: seq<string>) | IndexError

  /** How a call ends: with a returned string or a raised exception. */
  datatype Outcome = Returned(text: string) | Raised(exc: Exception)

  /** input_error: a returned string passes through; each caught exception becomes its fixed text. */
  function InputError(o: Outcome): (r: string)
    ensures o.Returned? ==> r == o.text
    ensures o == Raised(ValueError) ==> r == MessageTexts.InputErrorMissingArgs
    ensures o == Raised(KeyError(["unknown_command"])) ==> r == MessageTexts.UnknownCommand
    ensures o.Raised? && o.exc.KeyError? && (|o.exc.args| == 0 || o.exc.args[0] != "unknown_command") ==>
      r == MessageTexts.InputErrorContactNotFound
    ensures o == Raised(IndexError) ==> r == MessageTexts.InputErrorEnterName
  {
    match o
    case Returned(text) => text
    case Raised(ValueError) => MessageTexts.InputErrorMissingArgs
    case Raised(KeyError(args)) =>
      if |args| > 0 && args[0] == "unknown_command" then MessageTexts.UnknownCommand
      else MessageTexts.InputErrorContactNotFound
    case Raised(IndexError) => MessageTexts.InputErrorEnterName
  }

  /** The four kinds of failure input_error tells apart. */
  datatype ErrorKind = MissingArguments | UnknownCommand | ContactNotFound | NoNameProvided

  function KindOf(e: Exception): (r: ErrorKind)
  {
    match e
    case ValueError => MissingArguments
    case KeyError(args) => if |args| > 0 && args[0] == "unknown_command" then UnknownCommand else ContactNotFound
    case IndexError => NoNameProvided
  }

  /** Every caught exception becomes one of the four fixed texts, and different kinds of failure
      become different texts, so the message always tells the user which failure it was. */
  lemma InputErrorDistinguishesKinds(e1: Exception, e2: Exception)
    ensures InputError(Raised(e1)) in {MessageTexts.InputErrorMissingArgs, MessageTexts.UnknownCommand,
                                       MessageTexts.InputErrorContactNotFound, MessageTexts.InputErrorEnterName}
    ensures InputError(Raised(e1)) == InputError(Raised(e2)) <==> KindOf(e1) == KindOf(e2)
  {
    assert |MessageTexts.InputErrorMissingArgs| == 30 && |MessageTexts.UnknownCommand| == 65;
    assert |MessageTexts.InputErrorContactNotFound| == 18 && |MessageTexts.InputErrorEnterName| == 16;
  }

  // ---------------------------------------------------------------- validate_args

  /** The validators registered for argument positions. */
  datatype Check = NameFormat | PhoneFormat

  /** What a registered validator says of an argument. */
  predicate Accepts(c: Check, arg: string)
  {
    match c
    case NameFormat => ValidName(arg)
    case PhoneFormat => IsValidPhone(arg)
  }

  /** Runs a registered validator as the source does: is_valid_name or is_valid_phone. */
  method RunCheck(c: Check, arg: string) returns (ok: bool)
    ensures ok == Accepts(c, arg)
  {
    match c {
      case NameFormat =>
        ok := IsValidName(arg);
      case PhoneFormat =>
        ok := IsValidPhone(arg);
    }
  }

  /** The parameters of validate_args: the minimum number of arguments, the validators by argument
      index in registration order, the custom messages by index, and whether to normalise. */
  datatype ArgContract = ArgContract(
    requiredCount: nat,
    validators: seq<(nat, Check)>,
    errorMessages: map<nat, string>,
    normalizeArgs: bool)

  /** With normalisation on, several tokens are folded into the handler's arity: for one argument
      all tokens are joined by spaces; for two, all but the last are joined and the last kept. */
  function NormalizeArgs(c: ArgContract, args: seq<string>): (r: seq<string>)
  {
    if c.normalizeArgs && c.requiredCount == 1 && |args| > 1 then [Join(args, " ")]
    else if c.normalizeArgs && c.requiredCount == 2 && |args| > 2 then [Join(args[..|args| - 1], " "), args[|args| - 1]]
    else args
  }

  /** The registered validator `v` applies to an argument in the list and refuses it. */
  predicate Fails(v: (nat, Check), args: seq<string>)
  {
    v.0 < |args| && !Accepts(v.1, args[v.0])
  }

  /** The position, in registration order, of the first validator that refuses its argument. */
  function FirstFailure(validators: seq<(nat, Check)>, args: seq<string>): (r: Option<nat>)
    ensures r.None? ==> forall k :: 0 <= k < |validators| ==> !Fails(validators[k], args)
    ensures r.Some? ==> r.value < |validators| && Fails(validators[r.value], args)
    ensures r.Some? ==> forall k :: 0 <= k < r.value ==> !Fails(validators[k], args)
  {
    if |validators| == 0 then None
    else if Fails(validators[0], args) then Some(0)
    else match FirstFailure(validators[1..], args)
      case None => None
      case Some(k) => Some(k + 1)
  }

  /** The first failure is determined by where failures are: the earliest failing position. */
  lemma FirstFailureAt(validators: seq<(nat, Check)>, args: seq<string>, k: nat)
    requires k <= |validators|
    requires forall j :: 0 <= j < k ==> !Fails(validators[j], args)
    ensures k < |validators| && Fails(validators[k], args) ==> FirstFailure(validators, args) == Some(k)
    ensures k == |validators| ==> FirstFailure(validators, args) == None
  {
    var r := FirstFailure(validators, args);
    if r.Some? {
      var i := r.value;
      assert Fails(validators[i], args);
      assert k <= i;
      if k < |validators| && Fails(validators[k], args) {
        assert !(k < i);
      }
    }
  }

  /** The message for a refused argument: its custom message if one is registered, otherwise
      "Invalid format for argument N." with the 1-based position. */
  function FailureMessage(c: ArgContract, idx: nat): string
  {
    if idx in c.errorMessages then c.errorMessages[idx] else MessageTexts.InvalidArgumentFormat(idx + 1)
  }

  /** Where validate_args sends a call: on to the handler with these arguments, back with a
      message and without calling the handler, or out with a raised exception. */
  datatype Gate = Proceed(args: seq<string>) | Refuse(message: string) | Raise(exc: Exception)

  /** The decision validate_args's wrapper takes for `args`. */
  function Screen(c: ArgContract, args: seq<string>): (r: Gate)
  {
    var normalized := NormalizeArgs(c, args);
    if |normalized| < c.requiredCount then Raise(ValueError)
    else match FirstFailure(c.validators, normalized)
      case Some(k) => Refuse(FailureMessage(c, c.validators[k].0))
      case None => Proceed(normalized)
  }

  /** validate_args's wrapper up to the handler call: normalise, check the count, then run the
      validators in registration order and stop at the first that refuses. */
  method ScreenArgs(c: ArgContract, args: seq<string>) returns (g: Gate)
    ensures g == Screen(c, args)
  {
    var normalizedArgs := args;
    if c.normalizeArgs {
      if c.requiredCount == 1 && |args| > 1 {
        normalizedArgs := [Join(args, " ")];
      } else if c.requiredCount == 2 && |args| > 2 {
        normalizedArgs := [Join(args[..|args| - 1], " "), args[|args| - 1]];
      }
    }
    assert normalizedArgs == NormalizeArgs(c, args);
    if |normalizedArgs| < c.requiredCount {
      return Raise(ValueError);
    }
    var k := 0;
    while k < |c.validators|
      invariant 0 <= k <= |c.validators|
      invariant forall j :: 0 <= j < k ==> !Fails(c.validators[j], normalizedArgs)
    {
      var (idx, check) := c.validators[k];
      if idx < |normalizedArgs| {
        var ok := RunCheck(check, normalizedArgs[idx]);
        if !ok {
          FirstFailureAt(c.validators, normalizedArgs, k);
          if idx in c.errorMessages {
            return Refuse(c.errorMessages[idx]);
          } else {
            return Refuse(MessageTexts.InvalidArgumentFormat(idx + 1));
          }
        }
      }
      k := k + 1;
    }
    FirstFailureAt(c.validators, normalizedArgs, k);
    return Proceed(normalizedArgs);
  }

  // ---------------------------------------------------------------- properties of validate_args

  /** For a two-argument handler with normalisation, any two or more tokens become the name made
      of all tokens but the last, joined by spaces, and the last token; exactly two pass unchanged. */
  lemma NormalizeTwo(c: ArgContract, args: seq<string>)
    requires c.normalizeArgs && c.requiredCount == 2 && |args| >= 2
    ensures NormalizeArgs(c, args) == [Join(args[..|args| - 1], " "), args[|args| - 1]]
    ensures |args| == 2 ==> NormalizeArgs(c, args) == args
  {
    if |args| == 2 {
      assert args[..1] == [args[0]];
      assert args == [args[0], args[1]];
    }
  }

  /** For a one-argument handler with normalisation, any one or more tokens become one argument. */
  lemma NormalizeOne(c: ArgContract, args: seq<string>)
    requires c.normalizeArgs && c.requiredCount == 1 && |args| >= 1
    ensures NormalizeArgs(c, args) == [Join(args, " ")]
  {
    if |args| == 1 {
      assert args == [args[0]];
    }
  }

  /** Too few arguments after normalisation raise ValueError, which input_error reports as the
      missing-arguments text; otherwise no exception leaves validate_args. */
  lemma ScreenMissing(c: ArgContract, args: seq<string>)
    ensures Screen(c, args).Raise? <==> |NormalizeArgs(c, args)| < c.requiredCount
    ensures Screen(c, args).Raise? ==> InputError(Raised(Screen(c, args).exc)) == MessageTexts.InputErrorMissingArgs
  {
  }

  /** With normalisation on for a one- or two-argument handler, a call that passes the count check
      reaches the validators, and the handler, with exactly that many arguments. */
  lemma NormalizedArity(c: ArgContract, args: seq<string>)
    requires c.normalizeArgs && (c.requiredCount == 1 || c.requiredCount == 2)
    requires |NormalizeArgs(c, args)| >= c.requiredCount
    ensures |NormalizeArgs(c, args)| == c.requiredCount
  {
  }

  /** The handler runs exactly when the count is met and no registered validator refuses its
      argument, and it then receives the normalised list. */
  lemma ScreenProceeds(c: ArgContract, args: seq<string>)
    ensures Screen(c, args).Proceed? <==>
      && |NormalizeArgs(c, args)| >= c.requiredCount
      && forall k :: 0 <= k < |c.validators| ==> !Fails(c.validators[k], NormalizeArgs(c, args))
    ensures Screen(c, args).Proceed? ==> Screen(c, args).args == NormalizeArgs(c, args)
  {
    var n := NormalizeArgs(c, args);
    if |n| >= c.requiredCount && FirstFailure(c.validators, n).Some? {
      var k := FirstFailure(c.validators, n).value;
      assert Fails(c.validators[k], n);
    }
  }

  /** Whatever reaches the handler has passed every registered validator. */
  lemma ProceedPassesChecks(c: ArgContract, args: seq<string>, normalized: seq<string>)
    requires Screen(c, args) == Proceed(normalized)
    ensures |normalized| >= c.requiredCount
    ensures forall k :: 0 <= k < |c.validators| ==> !Fails(c.validators[k], normalized)
  {
  }

  /** A refusal names the first refusing validator in registration order: the handler is not
      called and the message is that validator's custom text or the positional default. */
  lemma ScreenRefuses(c: ArgContract, args: seq<string>)
    requires Screen(c, args).Refuse?
    ensures exists k ::
      && 0 <= k < |c.validators|
      && Fails(c.validators[k], NormalizeArgs(c, args))
      && (forall j :: 0 <= j < k ==> !Fails(c.validators[j], NormalizeArgs(c, args)))
      && Screen(c, args).message == FailureMessage(c, c.validators[k].0)
  {
    var k := FirstFailure(c.validators, NormalizeArgs(c, args)).value;
    assert Fails(c.validators[k], NormalizeArgs(c, args));
  }
}
