/**
 * The address book of the address-book package: records kept under their names, in the order
 * the names were first added, with add (overwriting), find and delete.
 */
module AddressBooks {
  import opened Wrappers
  import opened Text
  import opened Validators
  import opened Dicts
  import opened Fields
  import opened Records

  class AddressBook {
    var data: Dict<Record>

    /** Every record is stored under its own name. */
    ghost predicate Valid()
      reads this
    {
      data.Valid() && forall k :: k in data.values ==> data.values[k].name.value == k
    }

    /** An empty book. */
    constructor ()
      ensures Valid() && data == Empty()
    {
      data := Empty();
    }

    /** add_record: the record is stored under its name, replacing any record held there. */
    method AddRecord(record: Record)
      requires Valid()
      modifies this
      ensures Valid()
      ensures data == Put(old(data), record.name.value, record)
    {
      data := Put(data, record.name.value, record);
    }

    /** find: the record stored under `name`, which carries that name, or None; nothing changes. */
    method Find(name: string) returns (r: Option<Record>)
      requires Valid()
      ensures r.Some? <==> name in data.values
      ensures r.Some? ==> r.value == data.values[name] && r.value.name.value == name
    {
      r := Get(data, name);
    }

    /** delete: the record under `name` goes if there is one; an absent name is no error and
        changes nothing. */
    method Delete(name: string)
      requires Valid()
      modifies this
      ensures Valid()
      ensures data == Remove(old(data), name)
    {
      if name in data.values {
        data := Remove(data, name);
      }
    }
  }

  /** add_phone with a number already in normalised form appends exactly that phone. */
  method AddNormalPhone(record: Record, p: Phone)
    requires record.Valid() && NormalPhone(p)
    modifies record
    ensures record.Valid()
    ensures record.phones == old(record.phones) + [p]
  {
    NewPhoneOfNormal(p);
    var _ := record.AddPhone(p.value);
  }

  /** A record with an accepted name and the given normalised phones, added in order. */
  method RecordOfTwo(name: string, first: Phone, second: Phone) returns (record: Record)
    requires ValidName(name)
    requires NormalPhone(first) && NormalPhone(second)
    ensures fresh(record) && record.Valid()
    ensures record.name == Name(name) && record.phones == [first, second]
  {
    var made := NewRecord(name);
    record := made.value;
    AddNormalPhone(record, first);
    AddNormalPhone(record, second);
  }

  /** A record with an accepted name and one normalised phone. */
  method RecordOfOne(name: string, phone: Phone) returns (record: Record)
    requires ValidName(name)
    requires NormalPhone(phone)
    ensures fresh(record) && record.Valid()
    ensures record.name == Name(name) && record.phones == [phone]
  {
    var made := NewRecord(name);
    record := made.value;
    AddNormalPhone(record, phone);
  }

  /** edit_phone on the first of two phones replaces it in place. */
  method EditFirstOfTwo(record: Record, first: Phone, second: Phone, replacement: Phone)
    requires record.Valid() && record.phones == [first, second]
    requires NormalPhone(replacement)
    modifies record
    ensures record.Valid()
    ensures record.phones == [replacement, second]
  {
    NewPhoneOfNormal(replacement);
    assert FirstMatch(record.phones, first.value) == Some(0);
    var _ := record.EditPhone(first.value, replacement.value);
  }

  /** A record with two phones reads as its name, then the two numbers separated by "; ". */
  lemma DescribeTwo(name: Name, first: Phone, second: Phone)
    ensures Describe(name, [first, second]) == "Contact name: " + name.value + ", phones: " + first.value + "; " + second.value
  {
    var values := [first.value, second.value];
    assert Values([first, second]) == values;
    assert values[1..] == [second.value];
    assert Join(values, "; ") == first.value + "; " + second.value;
    var head := "Contact name: " + name.value + ", phones: ";
    assert head + (first.value + "; " + second.value) == head + first.value + "; " + second.value;
  }

  /** A record holding two phones: str shows both in order, and find_phone finds the second. */
  method ShowAndFind(record: Record, first: Phone, second: Phone) returns (shown: string, foundPhone: Option<string>)
    requires record.phones == [first, second]
    ensures shown == "Contact name: " + record.name.value + ", phones: " + first.value + "; " + second.value
    ensures foundPhone == Some(second.value)
  {
    DescribeTwo(record.name, first, second);
    shown := record.ToString();
    assert record.phones[1].value == second.value;
    foundPhone := record.FindPhone(second.value);
  }

  /** A book holding two records under different names, in the order added. */
  method BookOfTwo(first: Record, second: Record) returns (book: AddressBook)
    requires first.name.value != second.name.value
    ensures fresh(book) && book.Valid()
    ensures book.data.keys == [first.name.value, second.name.value]
    ensures book.data.values == map[first.name.value := first, second.name.value := second]
  {
    book := new AddressBook();
    book.AddRecord(first);
    book.AddRecord(second);
  }

  /** Deleting the second of two names leaves the first alone in the book. */
  method DeleteSecond(book: AddressBook, first: string, second: string)
    requires book.Valid() && book.data.keys == [first, second] && first != second
    modifies book
    ensures book.Valid() && book.data.keys == [first] && second !in book.data.values
    ensures book.data.values == old(book.data.values) - {second}
  {
    assert IndexOf(book.data.keys, second) == 1;
    book.Delete(second);
    assert book.data.keys == [first, second][..1];
  }

  /** What the demo prints for a book: for each name in the book's order, the name, ": " and
      the text of its record. */
  method Listing(book: AddressBook) returns (lines: seq<string>)
    requires book.Valid()
    ensures |lines| == |book.data.keys|
    ensures forall i :: 0 <= i < |lines| ==>
      lines[i] == book.data.keys[i] + ": " + book.data.values[book.data.keys[i]].ToString()
  {
    lines := [];
    for i := 0 to |book.data.keys|
      invariant |lines| == i
      invariant forall j :: 0 <= j < i ==>
        lines[j] == book.data.keys[j] + ": " + book.data.values[book.data.keys[j]].ToString()
    {
      var name := book.data.keys[i];
      lines := lines + [name + ": " + book.data.values[name].ToString()];
    }
  }

  /** The listing of a book holding a record with two phones, then a record with one. */
  method ListTwo(book: AddressBook, first: Record, second: Record, p1: Phone, p2: Phone, p3: Phone)
    returns (lines: seq<string>)
    requires book.Valid()
    requires book.data.keys == [first.name.value, second.name.value]
    requires book.data.values == map[first.name.value := first, second.name.value := second]
    requires first.phones == [p1, p2] && second.phones == [p3]
    ensures lines == [first.name.value + ": " + ("Contact name: " + first.name.value + ", phones: " + p1.value + "; " + p2.value),
                      second.name.value + ": " + ("Contact name: " + second.name.value + ", phones: " + p3.value)]
  {
    lines := Listing(book);
    var n1, n2 := first.name.value, second.name.value;
    assert n1 != n2 by { assert book.data.keys[0] != book.data.keys[1]; }
    assert book.data.values[n1] == first && book.data.values[n2] == second;
    DescribeTwo(first.name, p1, p2);
    DescribeAppend(second.name, [], p3);
    assert lines[0] == n1 + ": " + first.ToString();
    assert lines[1] == n2 + ": " + second.ToString();
  }

  /** The listing of a book holding one record with two phones. */
  method ListOne(book: AddressBook, record: Record, p1: Phone, p2: Phone) returns (lines: seq<string>)
    requires book.Valid()
    requires book.data.keys == [record.name.value]
    requires book.data.values == map[record.name.value := record]
    requires record.phones == [p1, p2]
    ensures lines == [record.name.value + ": " + ("Contact name: " + record.name.value + ", phones: " + p1.value + "; " + p2.value)]
  {
    lines := Listing(book);
    DescribeTwo(record.name, p1, p2);
  }

  /** The example session for two distinct accepted names and four numbers already in normalised
      form: the first contact gets two phones and the second one; both records are added and the
      book is listed; the first contact, found by name, has its first phone edited and its second
      phone found; the second contact is deleted, can no longer be found, and the book is listed
      again. */
  method Session(name1: string, name2: string, p1: Phone, p2: Phone, p3: Phone, p4: Phone)
    returns (namesBefore: seq<string>, listingBefore: seq<string>, shown: string,
             foundPhone: Option<string>, afterDelete: Option<Record>, namesAfter: seq<string>,
             listingAfter: seq<string>)
    requires ValidName(name1) && ValidName(name2) && name1 != name2
    requires NormalPhone(p1) && NormalPhone(p2) && NormalPhone(p3) && NormalPhone(p4)
    ensures namesBefore == [name1, name2]
    ensures listingBefore == [name1 + ": " + ("Contact name: " + name1 + ", phones: " + p1.value + "; " + p2.value),
                              name2 + ": " + ("Contact name: " + name2 + ", phones: " + p3.value)]
    ensures shown == "Contact name: " + name1 + ", phones: " + p4.value + "; " + p2.value
    ensures foundPhone == Some(p2.value)
    ensures afterDelete == None
    ensures namesAfter == [name1]
    ensures listingAfter == [name1 + ": " + ("Contact name: " + name1 + ", phones: " + p4.value + "; " + p2.value)]
  {
    var first := RecordOfTwo(name1, p1, p2);
    var second := RecordOfOne(name2, p3);
    var book := BookOfTwo(first, second);
    namesBefore := book.data.keys;
    listingBefore := ListTwo(book, first, second, p1, p2, p3);

    var found := book.Find(name1);
    EditFirstOfTwo(found.value, p1, p2, p4);
    shown, foundPhone := ShowAndFind(found.value, p4, p2);

    DeleteSecond(book, name1, name2);
    afterDelete := book.Find(name2);
    namesAfter := book.data.keys;
    assert book.data.values == map[name1 := first];
    listingAfter := ListOne(book, first, p4, p2);
  }

  /** The names of the package's example session are accepted. */
  lemma ExampleNames()
    ensures ValidName("John") && ValidName("Jane") && "John" != "Jane"
  {
    NameDocExamples();
    assert ValidName("Jane") by { StripTrimmed("Jane"); }
  }

  /** The numbers of the package's example session are already in normalised form. */
  lemma ExamplePhones()
    ensures NormalPhone(Phone("0501234567")) && NormalPhone(Phone("0505555555"))
    ensures NormalPhone(Phone("0987654321")) && NormalPhone(Phone("0111222333"))
  {
  }

  /** The package's example session: both records are listed; after the edit John's record reads
      "Contact name: John, phones: 0111222333; 0505555555"; his phone 0505555555 is found; after the
      delete only John is left and listed. */
  method ExampleSession() returns (namesBefore: seq<string>, listingBefore: seq<string>,
                                   johnAfterEdit: string, foundPhone: Option<string>,
                                   janeAfterDelete: Option<Record>, namesAfter: seq<string>,
                                   listingAfter: seq<string>)
    ensures namesBefore == ["John", "Jane"]
    ensures listingBefore == ["John" + ": " + ("Contact name: " + "John" + ", phones: " + "0501234567" + "; " + "0505555555"),
                              "Jane" + ": " + ("Contact name: " + "Jane" + ", phones: " + "0987654321")]
    ensures johnAfterEdit == "Contact name: " + "John" + ", phones: " + "0111222333" + "; " + "0505555555"
    ensures foundPhone == Some("0505555555")
    ensures janeAfterDelete == None
    ensures namesAfter == ["John"]
    ensures listingAfter == ["John" + ": " + ("Contact name: " + "John" + ", phones: " + "0111222333" + "; " + "0505555555")]
  {
    ExampleNames();
    ExamplePhones();
    namesBefore, listingBefore, johnAfterEdit, foundPhone, janeAfterDelete, namesAfter, listingAfter :=
      Session("John", "Jane", Phone("0501234567"), Phone("0505555555"), Phone("0987654321"), Phone("0111222333"));
  }
}
