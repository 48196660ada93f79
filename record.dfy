/**
 * A contact record of the address-book package: a checked name and an ordered list of
 * normalised phones that the record's operations append to, filter, edit in place and search.
 */
module Records {
  import opened Wrappers
  import opened Text
  import opened Validators
  import opened Fields
  import MessageTexts

  // ---------------------------------------------------------------- list functions

  /** [p for p in phones if p.value != value]: the phones not equal to `value`, in order. */
  function Without(phones: seq<Phone>, value: string): (r: seq<Phone>)
    ensures |r| <= |phones|
  {
    if |phones| == 0 then []
    else (if phones[0].value != value then [phones[0]] else []) + Without(phones[1..], value)
  }

  /** The filter keeps a phone exactly when it is in the list and differs from `value`. */
  lemma {:induction false} WithoutMembers(phones: seq<Phone>, value: string)
    ensures forall p :: p in Without(phones, value) <==> p in phones && p.value != value
  {
    if |phones| > 0 {
      WithoutMembers(phones[1..], value);
      assert phones == [phones[0]] + phones[1..];
    }
  }

  /** The filter works piece by piece, so the phones it keeps stay in their order. */
  lemma {:induction false} WithoutConcat(a: seq<Phone>, b: seq<Phone>, value: string)
    ensures Without(a + b, value) == Without(a, value) + Without(b, value)
  {
    if |a| == 0 {
      assert a + b == b;
    } else {
      assert (a + b)[0] == a[0];
      assert (a + b)[1..] == a[1..] + b;
      WithoutConcat(a[1..], b, value);
    }
  }

  /** Removing a value no phone has leaves the list as it is. */
  lemma {:induction false} WithoutAbsent(phones: seq<Phone>, value: string)
    requires forall i :: 0 <= i < |phones| ==> phones[i].value != value
    ensures Without(phones, value) == phones
  {
    if |phones| > 0 {
      WithoutAbsent(phones[1..], value);
      assert phones == [phones[0]] + phones[1..];
    }
  }

  /** The position of the first phone whose value is `value`, if any. */
  function FirstMatch(phones: seq<Phone>, value: string): (r: Option<nat>)
    ensures r.None? ==> forall i :: 0 <= i < |phones| ==> phones[i].value != value
    ensures r.Some? ==> r.value < |phones| && phones[r.value].value == value
    ensures r.Some? ==> forall i :: 0 <= i < r.value ==> phones[i].value != value
  {
    if |phones| == 0 then None
    else if phones[0].value == value then Some(0)
    else match FirstMatch(phones[1..], value)
      case None => None
      case Some(k) => Some(k + 1)
  }

  /** The values of the phones, in order. */
  function Values(phones: seq<Phone>): (r: seq<string>)
    ensures |r| == |phones|
    ensures forall i :: 0 <= i < |r| ==> r[i] == phones[i].value
  {
    seq(|phones|, i requires 0 <= i < |phones| => phones[i].value)
  }

  /** str(record): the name, then the phone values in list order separated by "; ". */
  function Describe(name: Name, phones: seq<Phone>): (r: string)
  {
    "Contact name: " + name.value + ", phones: " + Join(Values(phones), "; ")
  }

  /** A record without phones shows an empty list; one more phone adds "; " and its value. */
  lemma DescribeAppend(name: Name, phones: seq<Phone>, p: Phone)
    ensures Describe(name, []) == "Contact name: " + name.value + ", phones: "
    ensures Describe(name, [p]) == "Contact name: " + name.value + ", phones: " + p.value
    ensures |phones| > 0 ==> Describe(name, phones + [p]) == Describe(name, phones) + "; " + p.value
  {
    assert Values([p]) == [p.value];
    if |phones| > 0 {
      assert Values(phones + [p]) == Values(phones) + [p.value];
      JoinSnoc(Values(phones), p.value, "; ");
    }
  }

  // ---------------------------------------------------------------- Record

  class Record {
    const name: Name
    var phones: seq<Phone>

    /** The name passed the name check, and every phone is in its normalised form. */
    ghost predicate Valid()
      reads this
    {
      && ValidName(name.value)
      && forall i :: 0 <= i < |phones| ==> NormalPhone(phones[i])
    }

    /** A record with an accepted name and no phones. */
    constructor (name: Name)
      requires ValidName(name.value)
      ensures Valid()
      ensures this.name == name && phones == []
    {
      this.name := name;
      phones := [];
    }

    /** add_phone: a refused phone is returned as its error with the list unchanged; an accepted
        one is appended, normalised, even when the list already holds it. */
    method AddPhone(phone: string) returns (err: Option<ModelError>)
      requires Valid()
      modifies this
      ensures Valid()
      ensures NewPhone(phone).Success? ==> err == None && phones == old(phones) + [NewPhone(phone).value]
      ensures NewPhone(phone).Failure? ==> err == Some(NewPhone(phone).error) && phones == old(phones)
    {
      var made := NewPhone(phone);
      NewPhoneSpec(phone);
      match made {
        case Failure(e) =>
          return Some(e);
        case Success(p) =>
          phones := phones + [p];
          return None;
      }
    }

    /** remove_phone: every phone equal to `phone` is dropped, the rest kept in order; it never fails. */
    method RemovePhone(phone: string)
      requires Valid()
      modifies this
      ensures Valid()
      ensures phones == Without(old(phones), phone)
    {
      WithoutMembers(phones, phone);
      phones := Without(phones, phone);
      forall i | 0 <= i < |phones| ensures NormalPhone(phones[i]) {
        assert phones[i] in old(phones);
      }
    }

    /** edit_phone: scans for the first phone equal to `oldPhone` and replaces it, in place, by the
        phone built from `newPhone`. No match is a PhoneNotFoundError naming `oldPhone`; a refused
        new phone is its InvalidPhoneError, raised before the assignment. Either way nothing changes. */
    method EditPhone(oldPhone: string, newPhone: string) returns (err: Option<ModelError>)
      requires Valid()
      modifies this
      ensures Valid()
      ensures FirstMatch(old(phones), oldPhone).None? ==>
        err == Some(PhoneNotFoundError(MessageTexts.PhoneNotFoundInRecord(oldPhone))) && phones == old(phones)
      ensures FirstMatch(old(phones), oldPhone).Some? && NewPhone(newPhone).Failure? ==>
        err == Some(NewPhone(newPhone).error) && phones == old(phones)
      ensures FirstMatch(old(phones), oldPhone).Some? && NewPhone(newPhone).Success? ==>
        err == None && phones == old(phones)[FirstMatch(old(phones), oldPhone).value := NewPhone(newPhone).value]
    {
      var phoneFound := false;
      var i := 0;
      while i < |phones|
        invariant 0 <= i <= |phones|
        invariant phones == old(phones)
        invariant forall j :: 0 <= j < i ==> phones[j].value != oldPhone
      {
        if phones[i].value == oldPhone {
          var made := NewPhone(newPhone);
          NewPhoneSpec(newPhone);
          FirstMatchAt(phones, oldPhone, i);
          match made {
            case Failure(e) =>
              return Some(e);
            case Success(p) =>
              phones := phones[i := p];
          }
          phoneFound := true;
          break;
        }
        i := i + 1;
      }
      if !phoneFound {
        FirstMatchAt(phones, oldPhone, i);
        return Some(PhoneNotFoundError(MessageTexts.PhoneNotFoundInRecord(oldPhone)));
      }
      return None;
    }

    /** find_phone: `phone` itself when some stored phone equals it, otherwise None. */
    method FindPhone(phone: string) returns (r: Option<string>)
      ensures r.Some? <==> exists i :: 0 <= i < |phones| && phones[i].value == phone
      ensures r.Some? ==> r.value == phone
    {
      for i := 0 to |phones|
        invariant forall j :: 0 <= j < i ==> phones[j].value != phone
      {
        if phones[i].value == phone {
          return Some(phones[i].value);
        }
      }
      return None;
    }

    /** str(record) */
    function ToString(): (r: string)
      reads this
    {
      Describe(name, phones)
    }
  }

  /** Record(name): a record when the name check accepts `name`, otherwise InvalidNameError. */
  method NewRecord(name: string) returns (r: Result<Record, ModelError>)
    ensures r.Success? <==> ValidName(name)
    ensures r.Success? ==> fresh(r.value) && r.value.Valid() && r.value.name == Name(name) && r.value.phones == []
    ensures r.Failure? ==> r.error == InvalidNameError(MessageTexts.InvalidNameFormat)
  {
    match NewName(name) {
      case Failure(e) =>
        return Failure(e);
      case Success(n) =>
        var record := new Record(n);
        return Success(record);
    }
  }

  /** The first match is determined by where matches are: the earliest matching position. */
  lemma FirstMatchAt(phones: seq<Phone>, value: string, k: nat)
    requires k <= |phones|
    requires forall j :: 0 <= j < k ==> phones[j].value != value
    ensures k < |phones| && phones[k].value == value ==> FirstMatch(phones, value) == Some(k)
    ensures k == |phones| ==> FirstMatch(phones, value) == None
  {
    var r := FirstMatch(phones, value);
    if r.Some? {
      assert k <= r.value;
    }
  }
}
