/**
 * The insertion-ordered symbol table (first_pass/symbol_table.rs): a list of
 * (label, address) entries searched front to back.
 */
module Symbols {
  import opened Common

  datatype Entry = Entry(name: string, address: u16)

  datatype SymbolTable = SymbolTable(entries: seq<Entry>)

  /** The labels of a table, in insertion order. */
  function Names(es: seq<Entry>): (r: seq<string>)
    ensures |r| == |es|
    ensures forall i :: 0 <= i < |es| ==> r[i] == es[i].name
  {
    if |es| == 0 then [] else [es[0].name] + Names(es[1..])
  }

  /**
   * The table read as a map. Folding from the back lets an earlier entry win over
   * a later one with the same label, as the front-to-back search does.
   */
  function AsMap(es: seq<Entry>): (m: map<string, u16>)
    ensures forall n :: n in m <==> n in Names(es)
  {
    if |es| == 0 then map[] else AsMap(es[1..])[es[0].name := es[0].address]
  }

  /** No label occurs twice. */
  predicate Distinct(es: seq<Entry>) {
    forall i, j :: 0 <= i < j < |es| ==> es[i].name != es[j].name
  }

  /** `SymbolTable::new`. */
  function New(): (t: SymbolTable)
    ensures |t.entries| == 0 && AsMap(t.entries) == map[]
  {
    SymbolTable([])
  }

  /** The first-match search of `get`. */
  function Lookup(es: seq<Entry>, name: string): Option<u16> {
    if |es| == 0 then None
    else if es[0].name == name then Some(es[0].address)
    else Lookup(es[1..], name)
  }

  /** `SymbolTable::get`. */
  function Get(t: SymbolTable, name: string): Option<u16> {
    Lookup(t.entries, name)
  }

  /** `get` yields the address of the first entry carrying the label. */
  lemma GetFirst(t: SymbolTable, name: string)
    ensures Get(t, name).Some? ==> exists k :: FirstEntry(t.entries, name, k) && t.entries[k].address == Get(t, name).value
  {
    LookupFirst(t.entries, name);
  }

  /** Entry `k` carries `name`, and no entry before it does. */
  predicate FirstEntry(es: seq<Entry>, name: string, k: int) {
    0 <= k < |es| && es[k].name == name && forall j :: 0 <= j < k ==> es[j].name != name
  }

  /** The search yields the address of the first entry carrying the label. */
  lemma {:induction false} LookupFirst(es: seq<Entry>, name: string)
    ensures Lookup(es, name).Some? ==> exists k :: FirstEntry(es, name, k) && es[k].address == Lookup(es, name).value
  {
    if |es| > 0 {
      LookupFirst(es[1..], name);
      if es[0].name == name {
        assert FirstEntry(es, name, 0);
      } else if Lookup(es[1..], name).Some? {
        var k :| FirstEntry(es[1..], name, k) && es[1..][k].address == Lookup(es[1..], name).value;
        assert FirstEntry(es, name, k + 1);
      }
    }
  }

  /** `get` succeeds exactly for the labels in the table, and yields the address stored with the label. */
  lemma GetFinds(t: SymbolTable, name: string)
    ensures Get(t, name).Some? <==> name in Names(t.entries)
    ensures Get(t, name).Some? ==> Entry(name, Get(t, name).value) in t.entries
  {
    LookupFinds(t.entries, name);
  }

  /** The search succeeds exactly for the labels in the table, and yields an entry of it. */
  lemma {:induction false} LookupFinds(es: seq<Entry>, name: string)
    ensures Lookup(es, name).Some? <==> name in Names(es)
    ensures Lookup(es, name).Some? ==> Entry(name, Lookup(es, name).value) in es
  {
    if |es| > 0 {
      LookupFinds(es[1..], name);
      assert Names(es) == [es[0].name] + Names(es[1..]);
    }
  }

  /** The in-place update or append of `insert`. */
  function InsertEntry(es: seq<Entry>, name: string, address: u16): (r: seq<Entry>)
    ensures Lookup(r, name) == Some(address)
    ensures forall other :: other != name ==> Lookup(r, other) == Lookup(es, other)
    ensures Names(r) == if Lookup(es, name).Some? then Names(es) else Names(es) + [name]
  {
    if |es| == 0 then [Entry(name, address)]
    else if es[0].name == name then
      Cons(Entry(name, address), es[1..]);
      Cons(es[0], es[1..]);
      [Entry(name, address)] + es[1..]
    else
      var rest := InsertEntry(es[1..], name, address);
      Cons(es[0], rest);
      Cons(es[0], es[1..]);
      [es[0]] + rest
  }

  /** Lookups and names of a table with one entry in front. */
  lemma Cons(e: Entry, rest: seq<Entry>)
    ensures ([e] + rest)[1..] == rest
    ensures Names([e] + rest) == [e.name] + Names(rest)
    ensures forall n :: Lookup([e] + rest, n) == if e.name == n then Some(e.address) else Lookup(rest, n)
  {
    assert ([e] + rest)[1..] == rest;
  }

  /**
   * `SymbolTable::insert`: the label now maps to `address`, every other label keeps
   * its address, and a new label is appended after all existing ones.
   */
  function Insert(t: SymbolTable, name: string, address: u16): (r: SymbolTable)
    ensures Get(r, name) == Some(address)
    ensures forall other :: other != name ==> Get(r, other) == Get(t, other)
    ensures Names(r.entries) == if Get(t, name).Some? then Names(t.entries) else Names(t.entries) + [name]
    ensures |r.entries| == |t.entries| + (if Get(t, name).Some? then 0 else 1)
  {
    assert Get(t, name) == Lookup(t.entries, name);
    SymbolTable(InsertEntry(t.entries, name, address))
  }

  /** `SymbolTable::len`. */
  function Len(t: SymbolTable): (r: nat)
    ensures r == |Names(t.entries)|
  {
    |t.entries|
  }

  /** `SymbolTable::is_empty`. */
  predicate IsEmpty(t: SymbolTable)
    ensures IsEmpty(t) <==> Len(t) == 0
  {
    |t.entries| == 0
  }

  /** `SymbolTable::iter`: the entries as pairs, in insertion order. */
  function Iter(t: SymbolTable): (r: seq<(string, u16)>)
    ensures |r| == Len(t)
    ensures forall i :: 0 <= i < |r| ==> r[i] == (t.entries[i].name, t.entries[i].address)
    ensures forall i :: 0 <= i < |r| ==> Get(t, r[i].0).Some?
  {
    var r := seq(|t.entries|, i requires 0 <= i < |t.entries| => (t.entries[i].name, t.entries[i].address));
    IterFound(t, r);
    r
  }

  lemma IterFound(t: SymbolTable, r: seq<(string, u16)>)
    requires |r| == |t.entries| && forall i :: 0 <= i < |r| ==> r[i].0 == t.entries[i].name
    ensures forall i :: 0 <= i < |r| ==> Get(t, r[i].0).Some?
  {
    forall i | 0 <= i < |r|
      ensures Get(t, r[i].0).Some?
    {
      GetFinds(t, r[i].0);
      assert Names(t.entries)[i] == r[i].0;
    }
  }

  /** A lookup is a map lookup on `AsMap`. */
  lemma {:induction false} LookupIsMap(es: seq<Entry>, name: string)
    ensures Lookup(es, name) == if name in AsMap(es) then Some(AsMap(es)[name]) else None
  {
    if |es| > 0 && es[0].name != name {
      LookupIsMap(es[1..], name);
    }
  }

  /** Inserting updates the map view at one label and nowhere else. */
  lemma InsertIsMapUpdate(t: SymbolTable, name: string, address: u16)
    ensures AsMap(Insert(t, name, address).entries) == AsMap(t.entries)[name := address]
  {
    var r := Insert(t, name, address).entries;
    var m := AsMap(t.entries)[name := address];
    forall n | n in AsMap(r) || n in m
      ensures n in AsMap(r) && n in m && AsMap(r)[n] == m[n]
    {
      LookupIsMap(r, n);
      LookupIsMap(t.entries, n);
    }
  }

  /** Insertion keeps labels distinct: a present label is updated, not duplicated. */
  lemma InsertKeepsDistinct(t: SymbolTable, name: string, address: u16)
    requires Distinct(t.entries)
    ensures Distinct(Insert(t, name, address).entries)
  {
    var r := Insert(t, name, address).entries;
    var ns := Names(r);
    GetFinds(t, name);
    assert forall i :: 0 <= i < |r| ==> ns[i] == r[i].name;
    forall i, j | 0 <= i < j < |r|
      ensures r[i].name != r[j].name
    {
      if Get(t, name).Some? {
        assert ns == Names(t.entries);
      } else {
        assert ns == Names(t.entries) + [name];
        if j == |t.entries| {
          assert ns[i] == Names(t.entries)[i];
          assert ns[i] in Names(t.entries);
        }
      }
    }
  }
}
