/**
 * The contact listing of the "all" command: the entries sorted by lower-cased name (a stable
 * sort, as Python's sorted is) and laid out as a two-column table whose name column is as
 * wide as the longest name.
 */
module ContactTable {
  import opened Text
  import opened Dicts
  import MessageTexts

  /** One (name, phone) pair as dict.items() yields it. */
  type Entry = (string, string)

  /** The sort key: the name lower-cased. */
  function SortKey(e: Entry): string
  {
    Lower(e.0)
  }

  // ---------------------------------------------------------------- the stable sort

  /** Non-decreasing by sort key. */
  predicate SortedByName(s: seq<Entry>)
  {
    forall i, j :: 0 <= i < j < |s| ==> LexLeq(SortKey(s[i]), SortKey(s[j]))
  }

  /** No entry of `s` has a key smaller than `k`. */
  predicate AllAtLeast(k: string, s: seq<Entry>)
  {
    forall i :: 0 <= i < |s| ==> LexLeq(k, SortKey(s[i]))
  }

  /** Puts `x` before the first entry whose key is not smaller than its own. */
  function Insert(x: Entry, s: seq<Entry>): (r: seq<Entry>)
    ensures |r| == |s| + 1
  {
    if |s| == 0 then [x]
    else if LexLeq(SortKey(x), SortKey(s[0])) then [x] + s
    else [s[0]] + Insert(x, s[1..])
  }

  /** sorted(items, key=lambda item: item[0].lower()), as an insertion sort from the back. */
  function SortByName(s: seq<Entry>): (r: seq<Entry>)
    ensures |r| == |s|
  {
    if |s| == 0 then [] else Insert(s[0], SortByName(s[1..]))
  }

  /** The entries of `s` whose key is `k`, in their order in `s`. */
  function WithKey(s: seq<Entry>, k: string): seq<Entry>
  {
    if |s| == 0 then []
    else (if SortKey(s[0]) == k then [s[0]] else []) + WithKey(s[1..], k)
  }

  /** Inserting adds exactly `x`. */
  lemma {:induction false} InsertPermutes(x: Entry, s: seq<Entry>)
    ensures multiset(Insert(x, s)) == multiset(s) + multiset{x}
  {
    if |s| > 0 && !LexLeq(SortKey(x), SortKey(s[0])) {
      InsertPermutes(x, s[1..]);
      assert s == [s[0]] + s[1..];
    }
  }

  /** A lower bound on the keys survives inserting an entry that respects it. */
  lemma {:induction false} InsertAtLeast(k: string, x: Entry, s: seq<Entry>)
    requires AllAtLeast(k, s) && LexLeq(k, SortKey(x))
    ensures AllAtLeast(k, Insert(x, s))
  {
    if |s| > 0 && !LexLeq(SortKey(x), SortKey(s[0])) {
      InsertAtLeast(k, x, s[1..]);
      var r := Insert(x, s);
      assert r == [s[0]] + Insert(x, s[1..]);
    }
  }

  /** Inserting into a sorted list keeps it sorted. */
  lemma {:induction false} InsertSorted(x: Entry, s: seq<Entry>)
    requires SortedByName(s)
    ensures SortedByName(Insert(x, s))
  {
    var kx := SortKey(x);
    if |s| == 0 {
    } else if LexLeq(kx, SortKey(s[0])) {
      forall j | 0 <= j < |s| ensures LexLeq(kx, SortKey(s[j])) {
        LexLeqTotalPreorder(kx, SortKey(s[0]), SortKey(s[j]));
      }
    } else {
      var k0 := SortKey(s[0]);
      LexLeqTotalPreorder(kx, k0, k0);
      InsertSorted(x, s[1..]);
      assert AllAtLeast(k0, s[1..]) by {
        forall i | 0 <= i < |s[1..]| ensures LexLeq(k0, SortKey(s[1..][i])) {
          assert s[1..][i] == s[i + 1];
        }
      }
      InsertAtLeast(k0, x, s[1..]);
    }
  }

  /** Inserting `x` puts it ahead of every entry with the same key: the entries it passes over
      all have strictly smaller keys. Entries with other keys keep their relative order. */
  lemma {:induction false} InsertWithKey(x: Entry, s: seq<Entry>, k: string)
    ensures WithKey(Insert(x, s), k) == if SortKey(x) == k then [x] + WithKey(s, k) else WithKey(s, k)
  {
    if |s| == 0 {
    } else if LexLeq(SortKey(x), SortKey(s[0])) {
      assert WithKey([x] + s, k) == (if SortKey(x) == k then [x] else []) + WithKey(s, k) by {
        assert ([x] + s)[1..] == s;
      }
    } else {
      InsertWithKey(x, s[1..], k);
      assert SortKey(s[0]) != SortKey(x) by { LexLessIrreflexive(SortKey(x)); }
      assert ([s[0]] + Insert(x, s[1..]))[1..] == Insert(x, s[1..]);
    }
  }

  /** The sort orders by key. */
  lemma {:induction false} SortByNameSorted(s: seq<Entry>)
    ensures SortedByName(SortByName(s))
  {
    if |s| > 0 {
      SortByNameSorted(s[1..]);
      InsertSorted(s[0], SortByName(s[1..]));
    }
  }

  /** The sort rearranges without adding or losing entries. */
  lemma {:induction false} SortByNamePermutes(s: seq<Entry>)
    ensures multiset(SortByName(s)) == multiset(s)
  {
    if |s| > 0 {
      SortByNamePermutes(s[1..]);
      InsertPermutes(s[0], SortByName(s[1..]));
      assert s == [s[0]] + s[1..];
    }
  }

  /** The sort is stable: entries with equal keys come out in the order they went in. */
  lemma {:induction false} SortByNameStable(s: seq<Entry>, k: string)
    ensures WithKey(SortByName(s), k) == WithKey(s, k)
  {
    if |s| > 0 {
      SortByNameStable(s[1..], k);
      InsertWithKey(s[0], SortByName(s[1..]), k);
    }
  }

  /** The sort orders by key, rearranges without adding or losing entries, and is stable. */
  lemma SortByNameSpec(s: seq<Entry>)
    ensures SortedByName(SortByName(s))
    ensures multiset(SortByName(s)) == multiset(s)
    ensures forall k :: WithKey(SortByName(s), k) == WithKey(s, k)
  {
    SortByNameSorted(s);
    SortByNamePermutes(s);
    forall k ensures WithKey(SortByName(s), k) == WithKey(s, k) {
      SortByNameStable(s, k);
    }
  }

  // ---------------------------------------------------------------- the table

  /** max(len(name) for name, _ in entries) */
  function MaxNameLen(entries: seq<Entry>): (w: nat)
    requires |entries| > 0
    ensures forall i :: 0 <= i < |entries| ==> |entries[i].0| <= w
    ensures exists i :: 0 <= i < |entries| && |entries[i].0| == w
  {
    if |entries| == 1 then |entries[0].0|
    else
      var rest := MaxNameLen(entries[1..]);
      assert forall i :: 1 <= i < |entries| ==> entries[i] == entries[1..][i - 1];
      if |entries[0].0| > rest then |entries[0].0| else rest
  }

  /** One contact: the name padded to the column width, " | ", the phone as stored. */
  function Row(e: Entry, width: nat): (r: string)
  {
    LJust(e.0, width) + " | " + e.1
  }

  /** The header: "Name" padded to the column width, then " | Phone". */
  function Header(width: nat): (r: string)
  {
    Row(("Name", "Phone"), width)
  }

  /** The rule under the header: a dash per column position, then " | -----". */
  function Rule(width: nat): (r: string)
  {
    Row((Repeat('-', width), Repeat('-', 5)), width)
  }

  /** The entries of a non-empty store in the order the table lists them. */
  function SortedEntries(d: Dict<string>): seq<Entry>
    requires d.Valid()
  {
    SortByName(Items(d))
  }

  /** The lines of the table of a non-empty store: header, rule, one row per sorted entry. */
  function TableLines(d: Dict<string>): (r: seq<string>)
    requires d.Valid() && |d.keys| > 0
  {
    var rows := SortedEntries(d);
    var width := MaxNameLen(rows);
    [Header(width), Rule(width)] + seq(|rows|, i requires 0 <= i < |rows| => Row(rows[i], width))
  }

  /** show_all: "No contacts found." for an empty store, otherwise the table lines joined by newlines. */
  function ShowAll(d: Dict<string>): (r: string)
    requires d.Valid()
  {
    if |d.keys| == 0 then MessageTexts.NoContactsFound
    else Join(TableLines(d), "\n")
  }

  // ---------------------------------------------------------------- properties of the listing

  /** An empty store is reported as such. */
  lemma ShowAllEmpty(d: Dict<string>)
    requires d.Valid() && d.values == map[]
    ensures ShowAll(d) == MessageTexts.NoContactsFound
  {
    EmptyIff(d);
  }

  /** The listing holds every stored (name, phone) pair once, sorted by lower-cased name, with pairs
      whose names agree when lower-cased in the store's insertion order. */
  lemma SortedEntriesSpec(d: Dict<string>)
    requires d.Valid()
    ensures SortedByName(SortedEntries(d))
    ensures multiset(SortedEntries(d)) == multiset(Items(d))
    ensures forall k :: WithKey(SortedEntries(d), k) == WithKey(Items(d), k)
    ensures forall e :: e in SortedEntries(d) <==> e.0 in d.values && d.values[e.0] == e.1
  {
    SortByNameSpec(Items(d));
    var items := Items(d);
    forall e ensures e in SortedEntries(d) <==> e.0 in d.values && d.values[e.0] == e.1 {
      assert e in SortedEntries(d) <==> e in multiset(items);
      if e.0 in d.values && d.values[e.0] == e.1 {
        var i :| 0 <= i < |d.keys| && d.keys[i] == e.0;
        assert items[i] == e;
      }
    }
  }

  /** The name column is exactly as wide as the longest stored name. */
  lemma ColumnWidth(d: Dict<string>)
    requires d.Valid() && |d.keys| > 0
    ensures var w := MaxNameLen(SortedEntries(d));
      && (forall k :: k in d.values ==> |k| <= w)
      && (exists k :: k in d.values && |k| == w)
  {
    var rows := SortedEntries(d);
    var w := MaxNameLen(rows);
    SortedEntriesSpec(d);
    forall k | k in d.values ensures |k| <= w {
      assert (k, d.values[k]) in rows;
    }
    var i :| 0 <= i < |rows| && |rows[i].0| == w;
    assert rows[i] in rows;
  }

  /** `line` holds the entry's name left-aligned in a column of width `w`, then " | ", then the
      entry's second field. */
  predicate RowLayout(line: string, e: Entry, w: nat)
  {
    && |e.0| <= w
    && |line| == w + 3 + |e.1|
    && line[..|e.0|] == e.0
    && (forall j :: |e.0| <= j < w ==> line[j] == ' ')
    && line[w..w + 3] == " | "
    && line[w + 3..] == e.1
  }

  /** A row whose name fits the column is laid out in it. */
  lemma RowLayoutOf(e: Entry, w: nat)
    requires |e.0| <= w
    ensures RowLayout(Row(e, w), e, w)
  {
    var pad := LJust(e.0, w);
    assert Row(e, w) == pad + " | " + e.1;
    assert (pad + " | " + e.1)[..|e.0|] == pad[..|e.0|];
  }

  /** The table has a header, a rule and one row per contact; every row has its name left-aligned
      in a column as wide as the longest name, then " | ", then its phone; the rule has that many
      dashes; the header lines up with the rows when the longest name has at least four characters. */
  lemma TableShape(d: Dict<string>)
    requires d.Valid() && |d.keys| > 0
    ensures var rows := SortedEntries(d);
      var w := MaxNameLen(rows);
      var lines := TableLines(d);
      && |rows| == |d.keys|
      && |lines| == 2 + |d.keys|
      && (w >= 4 ==> RowLayout(lines[0], ("Name", "Phone"), w))
      && RowLayout(lines[1], (Repeat('-', w), Repeat('-', 5)), w)
      && (forall i :: 0 <= i < |rows| ==> RowLayout(lines[2 + i], rows[i], w))
  {
    var rows := SortedEntries(d);
    var w := MaxNameLen(rows);
    var lines := TableLines(d);
    forall i | 0 <= i < |rows| ensures RowLayout(lines[2 + i], rows[i], w) {
      RowLayoutOf(rows[i], w);
    }
    RowLayoutOf((Repeat('-', w), Repeat('-', 5)), w);
    if w >= 4 {
      RowLayoutOf(("Name", "Phone"), w);
    }
  }

  /** A store holding one contact lists as header, rule and that contact's row, the column as
      wide as its name. */
  lemma SingleContact(name: string, phone: string)
    ensures var w := |name|;
      ShowAll(Put(Empty(), name, phone)) == Header(w) + "\n" + Rule(w) + "\n" + Row((name, phone), w)
  {
    var d := Put(Empty(), name, phone);
    var e := (name, phone);
    assert Items(d) == [e];
    assert SortedEntries(d) == [e];
    var w := MaxNameLen([e]);
    var lines := TableLines(d);
    assert lines == [Header(w), Rule(w), Row(e, w)];
    assert Join(lines[1..][1..], "\n") == lines[2] by { assert lines[1..][1..] == [lines[2]]; }
    assert Join(lines[1..], "\n") == lines[1] + "\n" + lines[2];
  }

  /** The three lines of the listing of the single contact "Al". */
  lemma ShortNameLines()
    ensures Header(2) == "Name | Phone"
    ensures Rule(2) == "-- | -----"
    ensures Row(("Al", "0501234567"), 2) == "Al | 0501234567"
  {
    assert LJust("Name", 2) == "Name";
    assert LJust("Al", 2) == "Al";
    assert Repeat('-', 2) == "--";
    assert Repeat('-', 5) == "-----";
  }

  /** When every name is shorter than "Name", ljust leaves the header as it is, so the header's
      " | " stands to the right of the rows': the single contact "Al" lists as below. */
  lemma ShortNameListing()
    ensures ShowAll(Put(Empty(), "Al", "0501234567")) == "Name | Phone" + "\n" + "-- | -----" + "\n" + "Al | 0501234567"
  {
    SingleContact("Al", "0501234567");
    ShortNameLines();
  }

  /** The lines of the documented two-contact listing: the column is five wide, so "Name" and
      "Bob" are padded and "Alice" fills it. */
  lemma DocLines()
    ensures Header(5) == "Name  | Phone"
    ensures Rule(5) == "----- | -----"
    ensures Row(("Alice", "1111111111"), 5) == "Alice | 1111111111"
    ensures Row(("Bob", "2222222222"), 5) == "Bob   | 2222222222"
  {
    assert LJust("Name", 5) == "Name ";
    assert LJust("Alice", 5) == "Alice";
    assert LJust("Bob", 5) == "Bob  ";
    assert Repeat('-', 5) == "-----";
  }

  /** "Alice" sorts before "Bob", so the sort keeps the two in their order. */
  lemma DocOrder()
    ensures SortByName([("Alice", "1111111111"), ("Bob", "2222222222")]) ==
      [("Alice", "1111111111"), ("Bob", "2222222222")]
  {
    var a, b := ("Alice", "1111111111"), ("Bob", "2222222222");
    assert SortKey(a)[0] == 'a' && SortKey(b)[0] == 'b';
    assert LexLeq(SortKey(a), SortKey(b));
    assert [a, b][1..] == [b];
    assert SortByName([b]) == [b];
  }

  /** The documented listing of {"Alice": "1111111111", "Bob": "2222222222"}: sorted by name, with
      the shorter name padded to the width of the longer. */
  lemma ShowAllDocExample()
    ensures ShowAll(Put(Put(Empty(), "Alice", "1111111111"), "Bob", "2222222222")) ==
      "Name  | Phone" + "\n" + ("----- | -----" + "\n" + ("Alice | 1111111111" + "\n" + "Bob   | 2222222222"))
  {
    var d := Put(Put(Empty(), "Alice", "1111111111"), "Bob", "2222222222");
    var a, b := ("Alice", "1111111111"), ("Bob", "2222222222");
    assert d.keys == ["Alice", "Bob"];
    assert Items(d) == [a, b];
    DocOrder();
    assert MaxNameLen([a, b]) == 5;
    var lines := TableLines(d);
    assert lines == [Header(5), Rule(5), Row(a, 5), Row(b, 5)];
    DocLines();
    assert lines[1..][1..][1..] == [lines[3]];
    assert Join(lines[1..][1..], "\n") == lines[2] + "\n" + lines[3];
  }
}
