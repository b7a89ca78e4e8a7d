/** The identifier registry (src/SymbolTable.java): a map from an identifier's
    spelling to an entry recording where it was first seen and how often. */
module Symbols {

  /** The value of one entry at a given moment. */
  datatype EntryView = EntryView(name: string, typeName: string, firstLine: int, firstColumn: int, frequency: nat)

  const DefaultType: string := "IDENTIFIER"

  /** What registering `name` at (`line`, `column`) does to the table's
      contents: a new name gets an entry of frequency 1 at that position; a
      known name only has its frequency raised. */
  function Register(m: map<string, EntryView>, name: string, line: int, column: int): (r: map<string, EntryView>)
    ensures name in r
    ensures name !in m ==> r[name] == EntryView(name, DefaultType, line, column, 1)
    ensures name in m ==> r[name] == m[name].(frequency := m[name].frequency + 1)
  {
    if name in m then m[name := m[name].(frequency := m[name].frequency + 1)]
    else m[name := EntryView(name, DefaultType, line, column, 1)]
  }

  /** Registering a name leaves every other entry as it was, and adds one
      entry exactly when the name is new. */
  lemma RegisterKeepsOthers(m: map<string, EntryView>, name: string, line: int, column: int)
    ensures forall k :: k != name ==> (k in Register(m, name, line, column) <==> k in m)
    ensures forall k :: k != name && k in m ==> Register(m, name, line, column)[k] == m[k]
    ensures |Register(m, name, line, column)| == if name in m then |m| else |m| + 1
  {
  }

  /** The ordering of Java's `String.compareTo`: lexicographic by character,
      a proper prefix before the longer string. */
  predicate NameLess(a: string, b: string)
    decreases |a|
  {
    if |a| == 0 then |b| > 0
    else if |b| == 0 then false
    else if a[0] != b[0] then a[0] < b[0]
    else NameLess(a[1..], b[1..])
  }

  lemma {:induction false} NameLessIrreflexive(a: string)
    ensures !NameLess(a, a)
    decreases |a|
  {
    if |a| > 0 {
      NameLessIrreflexive(a[1..]);
    }
  }

  lemma {:induction false} NameLessTransitive(a: string, b: string, c: string)
    requires NameLess(a, b) && NameLess(b, c)
    ensures NameLess(a, c)
    decreases |a|
  {
    if |a| > 0 && a[0] == b[0] && b[0] == c[0] {
      NameLessTransitive(a[1..], b[1..], c[1..]);
    }
  }

  lemma {:induction false} NameLessTotal(a: string, b: string)
    requires a != b
    ensures NameLess(a, b) || NameLess(b, a)
    decreases |a|
  {
    if |a| > 0 && |b| > 0 && a[0] == b[0] {
      assert a == [a[0]] + a[1..] && b == [b[0]] + b[1..];
      NameLessTotal(a[1..], b[1..]);
    }
  }

  predicate SortedByName(s: seq<EntryView>)
  {
    forall i, j :: 0 <= i < j < |s| ==> NameLess(s[i].name, s[j].name)
  }

  /** Inserts `e` into a name-sorted list of entries, keeping it sorted. */
  function InsertByName(s: seq<EntryView>, e: EntryView): (r: seq<EntryView>)
    requires SortedByName(s)
    requires forall x :: x in s ==> x.name != e.name
    ensures SortedByName(r)
    ensures multiset(r) == multiset(s) + multiset{e}
  {
    if s == [] then [e]
    else if NameLess(e.name, s[0].name) then
      assert forall j :: 0 < j < |s| ==> NameLess(e.name, s[j].name) by {
        forall j | 0 < j < |s| ensures NameLess(e.name, s[j].name) {
          NameLessTransitive(e.name, s[0].name, s[j].name);
        }
      }
      [e] + s
    else
      NameLessTotal(e.name, s[0].name);
      var rest := InsertByName(s[1..], e);
      assert s == [s[0]] + s[1..];
      assert forall x :: x in rest ==> NameLess(s[0].name, x.name) by {
        forall x | x in rest ensures NameLess(s[0].name, x.name) {
          assert x in multiset(rest);
          if x != e {
            assert x in multiset(s[1..]);
            var j :| 0 <= j < |s[1..]| && s[1..][j] == x;
            assert s[j + 1] == x;
          }
        }
      }
      [s[0]] + rest
  }

  /** One registry entry; its frequency and type are updated in place. */
  class SymbolEntry {
    const name: string
    var typeName: string
    const firstLine: int
    const firstColumn: int
    var frequency: nat

    function View(): EntryView
      reads this
    {
      EntryView(name, typeName, firstLine, firstColumn, frequency)
    }

    constructor (name: string, line: int, column: int)
      ensures View() == EntryView(name, DefaultType, line, column, 1)
    {
      this.name := name;
      this.typeName := DefaultType;
      this.firstLine := line;
      this.firstColumn := column;
      this.frequency := 1;
    }

    method IncrementFrequency()
      modifies this`frequency
      ensures View() == old(View()).(frequency := old(frequency) + 1)
    {
      frequency := frequency + 1;
    }

    method SetType(t: string)
      modifies this`typeName
      ensures View() == old(View()).(typeName := t)
    {
      typeName := t;
    }
  }

  class SymbolTable {
    var symbols: map<string, SymbolEntry>
    /** The table's contents as values, kept in step with the live entries. */
    ghost var entries: map<string, EntryView>
    /** The entry objects the table owns. */
    ghost var Repr: set<SymbolEntry>

    /** Each entry is filed under its own name (so no entry object is shared
        between two names), has been seen at least once, and is what
        `entries` says it is. */
    ghost predicate Valid()
      reads this, Repr
    {
      symbols.Keys == entries.Keys &&
      forall k :: k in symbols ==>
        symbols[k] in Repr && symbols[k].name == k && symbols[k].frequency >= 1 && symbols[k].View() == entries[k]
    }

    constructor ()
      ensures Valid() && entries == map[]
      ensures fresh(Repr)
    {
      symbols := map[];
      entries := map[];
      Repr := {};
    }

    method AddIdentifier(name: string, line: int, column: int)
      requires Valid()
      modifies this, Repr
      ensures Valid()
      ensures entries == Register(old(entries), name, line, column)
      ensures forall k :: k in old(symbols) ==> k in symbols && symbols[k] == old(symbols[k])
      ensures name in old(symbols) ==> Repr == old(Repr)
      ensures name !in old(symbols) ==> fresh(symbols[name]) && Repr == old(Repr) + {symbols[name]}
    {
      if name in symbols {
        var entry := symbols[name];
        entry.IncrementFrequency();
        entries := Register(entries, name, line, column);
        forall k | k in symbols && k != name
          ensures symbols[k].View() == entries[k]
        {
          assert symbols[k] != entry;
        }
      } else {
        var entry := new SymbolEntry(name, line, column);
        symbols := symbols[name := entry];
        entries := Register(entries, name, line, column);
        Repr := Repr + {entry};
      }
    }

    function Contains(name: string): (b: bool)
      reads this, Repr
      requires Valid()
      ensures b <==> name in entries
    {
      name in symbols
    }

    /** The live entry filed under `name`, or null when there is none. */
    method GetEntry(name: string) returns (e: SymbolEntry?)
      requires Valid()
      ensures e == null <==> name !in entries
      ensures e != null ==> e == symbols[name] && e in Repr && e.View() == entries[name]
    {
      e := if name in symbols then symbols[name] else null;
    }

    function GetSize(): (n: nat)
      reads this, Repr
      requires Valid()
      ensures n == |entries|
    {
      |symbols|
    }

    method Clear()
      modifies this
      ensures Valid() && entries == map[] && Repr == {}
    {
      symbols := map[];
      entries := map[];
      Repr := {};
    }

    /** The entries in ascending order of name, as listed for reporting. */
    method SortedEntries() returns (r: seq<EntryView>)
      requires Valid()
      ensures SortedByName(r)
      ensures |r| == |entries|
      ensures forall e :: e in r <==> e.name in entries && entries[e.name] == e
    {
      r := [];
      var remaining := symbols.Keys;
      while remaining != {}
        invariant remaining <= symbols.Keys
        invariant SortedByName(r)
        invariant forall e :: e in r ==> e.name in symbols && e.name !in remaining && e == symbols[e.name].View()
        invariant forall k :: k in symbols && k !in remaining ==> symbols[k].View() in r
        invariant |r| + |remaining| == |symbols|
        decreases |remaining|
      {
        var k :| k in remaining;
        var e := symbols[k].View();
        r := InsertByName(r, e);
        assert forall x :: x in r <==> x in multiset(r);
        remaining := remaining - {k};
      }
    }
  }
}
