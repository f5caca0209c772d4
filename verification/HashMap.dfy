/**
 The hash map that keeps the order of insertion: buckets of items chained through `nextCell`, with
 a back pointer to the slot that points to each item, and a list through all items.
 */
module HashMaps {
  import opened Basics
  import opened KeyOrder

  // ---- entries in order of insertion ----

  ghost predicate Unique<V>(e: Entries<V>) {
    forall i, j :: 0 <= i < j < |e| ==> e[i].0 != e[j].0
  }

  /** A linear search. */
  function IndexOf<V>(e: Entries<V>, key: int): (i: nat)
    ensures i <= |e| && (i < |e| ==> e[i].0 == key) && forall j :: 0 <= j < i ==> e[j].0 != key
  {
    if e == [] || e[0].0 == key then 0 else 1 + IndexOf(e[1..], key)
  }

  function Get<V>(e: Entries<V>, key: int): Option<V> {
    if IndexOf(e, key) < |e| then Some(e[IndexOf(e, key)].1) else None
  }

  /** An insertion at place `pos`, which counts only for a new key. */
  function Inserted<V>(e: Entries<V>, pos: nat, key: int, value: V, overwrite: bool): Entries<V>
    requires pos <= |e|
  {
    var i := IndexOf(e, key);
    if i == |e| then With(e, pos, key, value)
    else if overwrite then e[i := (key, value)]
    else e
  }

  lemma OnlyIndex<V>(e: Entries<V>, key: int, i: nat)
    requires Unique(e) && i < |e| && e[i].0 == key
    ensures IndexOf(e, key) == i
  {
  }

  lemma GetAt<V>(e: Entries<V>, key: int)
    ensures Get(e, key) == None <==> forall i :: 0 <= i < |e| ==> e[i].0 != key
  {
  }

  lemma InsertedUnique<V>(e: Entries<V>, pos: nat, key: int, value: V, overwrite: bool)
    requires Unique(e) && pos <= |e|
    ensures Unique(Inserted(e, pos, key, value, overwrite))
  {
    if IndexOf(e, key) == |e| { WithUnique(e, pos, key, value); }
  }

  lemma WithUnique<V>(e: Entries<V>, pos: nat, key: int, value: V)
    requires Unique(e) && pos <= |e| && forall j :: 0 <= j < |e| ==> e[j].0 != key
    ensures Unique(With(e, pos, key, value))
  {
    var r := With(e, pos, key, value);
    assert forall j :: 0 <= j < |r| ==> r[j] == if j < pos then e[j] else if j == pos then (key, value) else e[j - 1];
  }

  lemma WithoutUnique<V>(e: Entries<V>, i: nat)
    requires Unique(e) && i < |e|
    ensures Unique(Without(e, i))
  {
  }

  /** An insertion changes what its own key gives, unless the key is there and not to be overwritten. */
  lemma InsertedGet<V>(e: Entries<V>, pos: nat, key: int, value: V, overwrite: bool, k: int)
    requires Unique(e) && pos <= |e|
    ensures Get(Inserted(e, pos, key, value, overwrite), k)
            == if k == key && (overwrite || Get(e, key) == None) then Some(value) else Get(e, k)
  {
    var r, i := Inserted(e, pos, key, value, overwrite), IndexOf(e, k);
    InsertedUnique(e, pos, key, value, overwrite);
    if IndexOf(e, key) == |e| {
      if k == key {
        OnlyIndex(r, k, pos);
      } else if i < |e| {
        assert r[if i < pos then i else i + 1] == e[i];
        OnlyIndex(r, k, if i < pos then i else i + 1);
      } else {
        NewKeyOnly(e, pos, key, value, k);
      }
    } else if i < |e| {
      OnlyIndex(r, k, i);
    } else {
      assert forall j :: 0 <= j < |r| ==> r[j].0 == e[j].0;
      GetAt(r, k);
    }
  }

  lemma NewKeyOnly<V>(e: Entries<V>, pos: nat, key: int, value: V, k: int)
    requires pos <= |e| && IndexOf(e, k) == |e| && k != key
    ensures Get(With(e, pos, key, value), k) == None
  {
    var r := With(e, pos, key, value);
    assert forall j :: 0 <= j < |r| ==> r[j] == if j < pos then e[j] else if j == pos then (key, value) else e[j - 1];
    GetAt(r, k);
  }

  lemma RemovedGet<V>(e: Entries<V>, i: nat, k: int)
    requires Unique(e) && i < |e|
    ensures Get(Without(e, i), k) == if k == e[i].0 then None else Get(e, k)
  {
    var r, j := Without(e, i), IndexOf(e, k);
    WithoutUnique(e, i);
    assert forall m :: 0 <= m < |r| ==> r[m] == if m < i then e[m] else e[m + 1];
    if k == e[i].0 || j == |e| {
      GetAt(r, k);
    } else {
      OnlyIndex(r, k, if j < i then j else j - 1);
    }
  }

  // ---- whole histories ----

  /** A change of a map: at a place between the entries, of a key, or of all. */
  datatype Change<V> = Insertion(pos: nat, key: int, value: V, overwrite: bool) | Removal(key: int) | Clearing

  /** A place past the end is the end. */
  function Changed<V>(e: Entries<V>, c: Change<V>): Entries<V> {
    match c
    case Insertion(pos, key, value, overwrite) => Inserted(e, if pos < |e| then pos else |e|, key, value, overwrite)
    case Removal(key) => if IndexOf(e, key) < |e| then Without(e, IndexOf(e, key)) else e
    case Clearing => []
  }

  function History<V>(cs: seq<Change<V>>): Entries<V> {
    if cs == [] then [] else Changed(History(cs[..|cs| - 1]), cs[|cs| - 1])
  }

  /** The same on a mathematical map. */
  function MapChanged<V>(m: map<int, V>, c: Change<V>): map<int, V> {
    match c
    case Insertion(_, key, value, overwrite) => if overwrite || key !in m then m[key := value] else m
    case Removal(key) => m - {key}
    case Clearing => map[]
  }

  function MapHistory<V>(cs: seq<Change<V>>): map<int, V> {
    if cs == [] then map[] else MapChanged(MapHistory(cs[..|cs| - 1]), cs[|cs| - 1])
  }

  ghost predicate Agree<V>(e: Entries<V>, m: map<int, V>) {
    Unique(e) && forall k :: Get(e, k) == if k in m then Some(m[k]) else None
  }

  lemma ChangedAgree<V>(e: Entries<V>, m: map<int, V>, c: Change<V>)
    requires Agree(e, m)
    ensures Agree(Changed(e, c), MapChanged(m, c))
  {
    hide Unique, IndexOf, Inserted, Without;
    match c
    case Insertion(pos, key, value, overwrite) => {
      var p := if pos < |e| then pos else |e|;
      InsertedUnique(e, p, key, value, overwrite);
      forall k { InsertedGet(e, p, key, value, overwrite, k); }
    }
    case Removal(key) => {
      var i := IndexOf(e, key);
      if i < |e| {
        WithoutUnique(e, i);
        forall k { RemovedGet(e, i, k); }
      }
    }
    case Clearing => NoEntries<V>();
  }

  lemma NoEntries<V>()
    ensures Unique<V>([]) && forall k :: Get<V>([], k) == None
  {
  }

  /** Every history leaves unique keys, and each looks up as in the map. */
  lemma {:induction false} EveryHistory<V>(cs: seq<Change<V>>)
    ensures Agree(History(cs), MapHistory(cs))
  {
    if cs == [] {
      NoEntries<V>();
    } else {
      EveryHistory(cs[..|cs| - 1]);
      ChangedAgree(History(cs[..|cs| - 1]), MapHistory(cs[..|cs| - 1]), cs[|cs| - 1]);
    }
  }

  // ---- items and their links ----

  /** A slot that points to an item: a bucket, or the `nextCell` of the item before it. */
  datatype Cell<V(0)> = Bucket(i: nat) | Behind(item: Item<V>)

  class Item<V(0)> {
    var key: int
    var value: V
    var cell: Cell<V>
    var nextCell: Item?<V>
    var prev: Item?<V>
    var next: Item?<V>

    /** Storage for one item. */
    constructor () {
      cell := Bucket(0);
      nextCell, prev, next := null, null, null;
    }

    method Construct(key: int, value: V)
      modifies this`key, this`value
      ensures this.key == key && this.value == value
    {
      this.key, this.value := key, value;
    }
  }

  ghost function PrevAt<V(0)>(s: seq<Item<V>>, i: nat): Item?<V>
    requires i <= |s|
  {
    if i == 0 then null else s[i - 1]
  }

  ghost function NextAt<V(0)>(s: seq<Item<V>>, i: nat, end: Item<V>): Item<V>
    requires i < |s|
  {
    if i + 1 == |s| then end else s[i + 1]
  }

  ghost predicate Threaded<V(0)>(s: seq<Item<V>>, begin: Item<V>, end: Item<V>)
    reads Members(s)`next, Members(s)`prev, end`prev
  {
    && (forall i :: 0 <= i < |s| ==> s[i].prev == PrevAt(s, i) && s[i].next == NextAt(s, i, end))
    && end.prev == PrevAt(s, |s|)
    && begin == (if s == [] then end else s[0])
  }

  ghost function Single<V(0)>(x: Item?<V>): set<Item<V>> {
    if x == null then {} else {x}
  }

  ghost function AfterAt<V(0)>(s: seq<Item<V>>, i: nat): Item?<V>
    requires i < |s|
  {
    if i + 1 == |s| then null else s[i + 1]
  }

  ghost function Head<V(0)>(s: seq<Item<V>>): Item?<V> {
    if s == [] then null else s[0]
  }

  /** The storage that `prev` chains from `head`. */
  ghost predicate Chained<V(0)>(s: seq<Item<V>>, head: Item?<V>)
    reads Members(s)`prev
  {
    head == Head(s) && forall i :: 0 <= i < |s| ==> s[i].prev == AfterAt(s, i)
  }

  ghost function CellAt<V(0)>(c: seq<Item<V>>, i: nat, b: nat): Cell<V>
    requires i < |c|
  {
    if i == 0 then Bucket(b) else Behind(c[i - 1])
  }

  /** The items of bucket `b`: each knows the slot that points to it, and the next one. */
  ghost predicate Chain<V(0)>(c: seq<Item<V>>, b: nat)
    reads Members(c)`cell, Members(c)`nextCell
  {
    forall i :: 0 <= i < |c| ==> c[i].cell == CellAt(c, i, b) && c[i].nextCell == AfterAt(c, i)
  }

  lemma ChainAt<V(0)>(c: seq<Item<V>>, b: nat, i: nat)
    requires Chain(c, b) && i < |c|
    ensures c[i].cell == CellAt(c, i, b) && c[i].nextCell == AfterAt(c, i)
  {
  }

  /** The items of all chains. */
  ghost function Hung<V(0)>(cs: seq<seq<Item<V>>>): set<Item<V>> {
    set b, x | 0 <= b < |cs| && x in cs[b] :: x
  }

  ghost predicate AllChains<V(0)>(cs: seq<seq<Item<V>>>)
    reads Hung(cs)`cell, Hung(cs)`nextCell
  {
    forall b :: 0 <= b < |cs| ==> Members(cs[b]) <= Hung(cs) && Chain(cs[b], b)
  }

  ghost predicate Apart<V(0)>(cs: seq<seq<Item<V>>>) {
    forall a, b :: 0 <= a < |cs| && 0 <= b < |cs| && a != b ==> Members(cs[a]) !! Members(cs[b])
  }

  lemma ChainFront<V(0)>(c: seq<Item<V>>, b: nat, item: Item<V>)
    requires item.cell == Bucket(b) && item.nextCell == Head(c)
    requires c != [] ==> c[0].cell == Behind(item)
    requires forall i :: 0 < i < |c| ==> c[i].cell == CellAt(c, i, b)
    requires forall i :: 0 <= i < |c| ==> c[i].nextCell == AfterAt(c, i)
    ensures Chain([item] + c, b)
  {
    var r := [item] + c;
    forall i | 0 <= i < |r| ensures r[i].cell == CellAt(r, i, b) && r[i].nextCell == AfterAt(r, i) {
      if i > 0 { assert r[i] == c[i - 1]; }
    }
  }

  /** The chain without the item at index `k`. */
  lemma ChainWithout<V(0)>(c: seq<Item<V>>, b: nat, k: nat)
    requires k < |c|
    requires forall i :: 0 <= i < |c| && i != k + 1 ==> c[i].cell == CellAt(c, i, b)
    requires forall i :: 0 <= i < |c| && i != k - 1 ==> c[i].nextCell == AfterAt(c, i)
    requires k + 1 < |c| ==> c[k + 1].cell == CellAt(c, k, b)
    requires k > 0 ==> c[k - 1].nextCell == AfterAt(c, k)
    ensures Chain(c[..k] + c[k + 1..], b)
  {
    var r := c[..k] + c[k + 1..];
    forall i | 0 <= i < |r| ensures r[i].cell == CellAt(r, i, b) && r[i].nextCell == AfterAt(r, i) {
      if i < k { assert r[i] == c[i]; } else { assert r[i] == c[i + 1]; }
    }
  }

  ghost predicate Holds<V(0)>(s: seq<Item<V>>, e: Entries<V>)
    reads Members(s)`key, Members(s)`value
  {
    |s| == |e| && forall i :: 0 <= i < |s| ==> s[i].key == e[i].0 && s[i].value == e[i].1
  }

  class HashMap<V(0)> {
    const hash: int -> nat
    const endItem: Item<V>
    var capacity: nat
    var data: array?<Item?<V>>
    var begin: Item<V>
    var size: nat
    var freeItem: Item?<V>
    ghost var items: seq<Item<V>>
    ghost var chains: seq<seq<Item<V>>>
    ghost var free: seq<Item<V>>
    ghost var entries: Entries<V>

    /** Exactly the items of a bucket's hash are in the bucket's chain. */
    ghost predicate Hashed(s: seq<Item<V>>, cs: seq<seq<Item<V>>>)
      reads this`capacity, Members(s)`key
    {
      && capacity > 0 && |cs| == capacity
      && (forall b :: 0 <= b < capacity ==> Distinct(cs[b]))
      && (forall b, x :: 0 <= b < capacity && x in cs[b] ==> x in Members(s) && hash(x.key) % capacity == b)
      && (forall x :: x in Members(s) ==> x in cs[hash(x.key) % capacity])
    }

    ghost predicate Buckets()
      requires |chains| == capacity
      reads this`chains, this`capacity, this`data, data
    {
      if data == null then forall b :: 0 <= b < capacity ==> chains[b] == []
      else data.Length == capacity && forall b :: 0 <= b < capacity ==> data[b] == Head(chains[b])
    }

    ghost predicate TableOk()
      reads this`items, this`chains, this`capacity, this`data, data, Members(items)`key, Hung(chains)`cell, Hung(chains)`nextCell
    {
      Hashed(items, chains) && Buckets() && AllChains(chains)
    }

    ghost predicate ListOk()
      reads this`items, this`begin, this`size, endItem`prev, Members(items)`next, Members(items)`prev
    {
      Threaded(items, begin, endItem) && Distinct(items) && size == |items| && endItem !in Members(items)
    }

    ghost predicate FreeOk(live: set<Item<V>>)
      reads this`free, this`freeItem, Members(free)`prev
    {
      Chained(free, freeItem) && Distinct(free) && endItem !in Members(free) && Members(free) !! live
    }

    ghost predicate EntriesOk()
      reads this`items, this`entries, Members(items)`key, Members(items)`value
    {
      Holds(items, entries) && Unique(entries)
    }

    /** The objects that belong to the map. */
    ghost function Footprint(): set<object>
      reads this
    {
      {this, endItem} + Members(items) + Members(free) + (if data == null then {} else {data})
    }

    ghost predicate Valid()
      reads this, data, endItem`prev, Members(items), Hung(chains)`cell, Hung(chains)`nextCell, Members(free)`prev
    {
      ListOk() && TableOk() && FreeOk(Members(items)) && EntriesOk()
    }

    constructor (hash: int -> nat, capacity: nat)
      ensures Valid() && entries == [] && this.hash == hash && this.capacity == (if capacity == 0 then 1 else capacity)
      ensures data == null && free == [] && fresh(Footprint())
    {
      var end := new Item<V>();
      this.hash := hash;
      endItem := end;
      begin := end;
      this.capacity := if capacity == 0 then 1 else capacity;
      data := null;
      size := 0;
      freeItem := null;
      items, free, entries := [], [], [];
      chains := seq(if capacity == 0 then 1 else capacity, i => []);
      new;
      end.prev := null;
    }

    // ---- lookup ----

    lemma InChain(b: nat)
      requires Valid() && b < capacity
      ensures Chain(chains[b], b) && Distinct(chains[b]) && Members(chains[b]) <= Members(items)
      ensures data != null ==> data.Length == capacity && data[b] == Head(chains[b])
      ensures data == null ==> chains[b] == []
    {
      hide Threaded, Chained, Chain, Holds, Unique, Distinct, Head;
      forall x | x in chains[b] ensures x in Members(items) {}
    }

    /** An item with the key is in the chain of its bucket. */
    lemma ByHash(key: int)
      requires Valid()
      ensures forall i :: 0 <= i < |items| && items[i].key == key ==> items[i] in chains[hash(key) % capacity]
    {
    }

    /** An item of the list, with its entry. */
    lemma EntryOf(it: Item<V>) returns (i: nat)
      requires Valid() && it in Members(items)
      ensures |entries| == |items| && i < |items| && items[i] == it && it.key == entries[i].0 && it.value == entries[i].1
      ensures IndexOf(entries, it.key) == i
    {
      i :| 0 <= i < |items| && items[i] == it;
      OnlyIndex(entries, it.key, i);
    }

    lemma NoEntry(key: int)
      requires Valid() && forall x :: x in chains[hash(key) % capacity] ==> x.key != key
      ensures IndexOf(entries, key) == |entries| == |items|
    {
      ByHash(key);
      forall i | 0 <= i < |items| ensures entries[i].0 != key {
        assert entries[i].0 == items[i].key;
      }
    }

    /** `find` agrees with a linear search of the list. */
    method Find(key: int) returns (it: Item<V>)
      requires Valid()
      ensures |entries| == |items| && it == if IndexOf(entries, key) < |entries| then items[IndexOf(entries, key)] else endItem
      ensures Valid()
    {
      hide Valid;
      Capacity();
      ghost var b := hash(key) % capacity;
      InChain(b);
      if data == null {
        NoEntry(key);
        return endItem;
      }
      var hashCode := hash(key);
      var item := data[hashCode % capacity];
      ghost var c, j := chains[b], 0;
      while item != null
        invariant Valid() && j <= |c| && item == (if j == |c| then null else c[j])
        invariant forall i :: 0 <= i < j ==> c[i].key != key
        decreases |c| - j
      {
        InChain(b);
        ChainAt(c, b, j);
        assert c[j] in Members(c);
        if item.key == key {
          ghost var i := EntryOf(item);
          return item;
        }
        item := item.nextCell;
        j := j + 1;
      }
      NoEntry(key);
      it := endItem;
    }

    lemma Capacity()
      requires Valid()
      ensures capacity > 0 && |chains| == capacity && |entries| == |items|
    {
    }

    // ---- the chains ----

    /** The new item goes to the front of its bucket's chain. */
    method LinkChain(item: Item<V>, b: nat, ghost c: seq<Item<V>>)
      requires data != null && b < data.Length && data[b] == Head(c) && Chain(c, b) && Distinct(c) && item !in Members(c)
      modifies data, item`cell, item`nextCell, Members(c)`cell
      ensures Chain([item] + c, b) && data[..] == old(data[..])[b := item]
    {
      HeadIn(c);
      ghost var d := data[..];
      item.cell := Bucket(b);
      item.nextCell := data[b];
      if item.nextCell != null {
        item.nextCell.cell := Behind(item);
      }
      data[b] := item;
      ChainFront(c, b, item);
    }

    static lemma HeadIn(c: seq<Item<V>>)
      ensures Head(c) != null ==> Head(c) in Members(c)
      ensures Distinct(c) ==> forall i :: 0 < i < |c| ==> c[i] != c[0]
      ensures forall i :: 0 <= i < |c| ==> c[i] in Members(c)
    {
    }

    /** Hangs a new item into the table, with the other chains as they were. */
    method Hang(item: Item<V>, b: nat)
      requires data != null && data.Length == |chains| && b < |chains| && AllChains(chains) && Apart(chains)
      requires Distinct(chains[b]) && data[b] == Head(chains[b]) && item !in Hung(chains)
      modifies this`chains, data, item`cell, item`nextCell, Members(chains[b])`cell
      ensures chains == old(chains)[b := [item] + old(chains)[b]] && AllChains(chains)
      ensures data[..] == old(data[..])[b := item]
    {
      hide Chain, Head;
      ghost var cs := chains;
      forall k | 0 <= k < |cs| ensures Chain(cs[k], k) && item !in Members(cs[k]) {}
      assert forall k :: 0 <= k < |cs| ==> allocated(Members(cs[k]));
      LinkChain(item, b, cs[b]);
      forall k | 0 <= k < |cs| && k != b ensures Chain(cs[k], k) {
        assert Members(cs[k]) !! Members(cs[b]) && item !in Members(cs[k]);
      }
      chains := cs[b := [item] + cs[b]];
      HungMembers(chains);
    }

    static lemma HungMembers(cs: seq<seq<Item<V>>>)
      ensures forall b :: 0 <= b < |cs| ==> Members(cs[b]) <= Hung(cs)
    {
    }

    /** Takes an item out of its chain, through the slot that points to it. */
    method UnlinkChain(item: Item<V>, ghost b: nat, ghost c: seq<Item<V>>, ghost k: nat)
      requires data != null && b < data.Length && data[b] == Head(c) && Chain(c, b) && Distinct(c) && k < |c| && c[k] == item
      modifies data, Members(c)`cell, Members(c)`nextCell
      ensures Chain(c[..k] + c[k + 1..], b) && data[..] == old(data[..])[b := Head(c[..k] + c[k + 1..])]
    {
      hide Chain, Distinct, CellAt, AfterAt;
      ChainPlaces(c, b);
      Places(c, k);
      Neighbours(c, b, k);
      ghost var d := data[..];
      match item.cell {
        case Bucket(i) => data[i] := item.nextCell;
        case Behind(before) => before.nextCell := item.nextCell;
      }
      if item.nextCell != null {
        item.nextCell.cell := item.cell;
      }
      ChainWithout(c, b, k);
      assert Head(c[..k] + c[k + 1..]) == if k == 0 then AfterAt(c, 0) else c[0];
    }

    static lemma Alone(s: seq<Item<V>>, k: int)
      requires Distinct(s)
      ensures 0 <= k < |s| ==> forall j :: 0 <= j < |s| && j != k ==> s[j] != s[k]
    {
    }

    static lemma ChainPlaces(c: seq<Item<V>>, b: nat)
      requires Chain(c, b)
      ensures forall i :: 0 <= i < |c| ==> c[i].cell == CellAt(c, i, b) && c[i].nextCell == AfterAt(c, i)
    {
    }

    static lemma Neighbours(c: seq<Item<V>>, b: nat, k: nat)
      requires k < |c|
      ensures CellAt(c, k, b) == if k == 0 then Bucket(b) else Behind(c[k - 1])
      ensures AfterAt(c, k) == if k + 1 < |c| then c[k + 1] else null
    {
    }

    static lemma Places(c: seq<Item<V>>, k: nat)
      requires Distinct(c) && k < |c|
      ensures forall i :: 0 <= i < |c| && i != k ==> c[i] != c[k]
      ensures k > 0 ==> forall i :: 0 <= i < |c| && i != k - 1 ==> c[i] != c[k - 1]
      ensures k + 1 < |c| ==> forall i :: 0 <= i < |c| && i != k + 1 ==> c[i] != c[k + 1]
      ensures forall i :: 0 <= i < |c| ==> c[i] in Members(c)
    {
    }

    method Unhang(item: Item<V>, ghost b: nat, ghost k: nat)
      requires data != null && data.Length == |chains| && b < |chains| && AllChains(chains) && Apart(chains)
      requires Distinct(chains[b]) && data[b] == Head(chains[b]) && k < |chains[b]| && chains[b][k] == item
      modifies this`chains, data, Members(chains[b])`cell, Members(chains[b])`nextCell
      ensures chains == old(chains)[b := old(chains)[b][..k] + old(chains)[b][k + 1..]] && AllChains(chains)
      ensures data[..] == old(data[..])[b := Head(chains[b])]
    {
      hide Chain, Head;
      ghost var cs := chains;
      forall j | 0 <= j < |cs| ensures Chain(cs[j], j) {}
      assert forall j :: 0 <= j < |cs| ==> allocated(Members(cs[j]));
      UnlinkChain(item, b, cs[b], k);
      forall j | 0 <= j < |cs| && j != b ensures Chain(cs[j], j) {
        assert Members(cs[j]) !! Members(cs[b]);
      }
      chains := cs[b := cs[b][..k] + cs[b][k + 1..]];
      HungMembers(chains);
    }

    // ---- the list ----

    /** Links an item into the list before `insertPos`. */
    method LinkBefore(item: Item<V>, insertPos: Item<V>)
      requires item != insertPos && item != insertPos.prev && insertPos != insertPos.prev
      modifies this`begin, item`next, item`prev, Single(insertPos.prev)`next, insertPos`prev
      ensures item.prev == old(insertPos.prev) && item.next == insertPos && insertPos.prev == item
      ensures if item.prev != null then item.prev.next == item && begin == old(begin) else begin == item
    {
      item.prev := insertPos.prev;
      if item.prev != null {
        insertPos.prev.next := item;
      } else {
        begin := item;
      }
      item.next := insertPos;
      insertPos.prev := item;
    }

    method LinkAt(item: Item<V>, insertPos: Item<V>, ghost s: seq<Item<V>>, ghost k: nat)
      requires Threaded(s, begin, endItem) && Distinct(s) && item != endItem
      requires forall j :: 0 <= j < |s| ==> s[j] != endItem && s[j] != item
      requires k <= |s| && insertPos == (if k == |s| then endItem else s[k])
      modifies this`begin, item`next, item`prev, Members(s)`next, Members(s)`prev, endItem`prev
      ensures Threaded(s[..k] + [item] + s[k..], begin, endItem)
    {
      assert insertPos.prev == PrevAt(s, k) by { if k < |s| { assert s[k].prev == PrevAt(s, k); } }
      Alone(s, k - 1);
      Alone(s, k);
      LinkBefore(item, insertPos);
      ThreadedWith(s, k, item);
    }

    lemma ThreadedWith(s: seq<Item<V>>, k: nat, item: Item<V>)
      requires k <= |s|
      requires forall j :: 0 <= j < |s| && j != k - 1 ==> s[j].next == NextAt(s, j, endItem)
      requires forall j :: 0 <= j < |s| && j != k ==> s[j].prev == PrevAt(s, j)
      requires (k > 0 ==> s[k - 1].next == item) && (k < |s| ==> s[k].prev == item)
      requires item.prev == (if k == 0 then null else s[k - 1]) && item.next == (if k == |s| then endItem else s[k])
      requires endItem.prev == (if k == |s| then item else s[|s| - 1]) && begin == (if k == 0 then item else s[0])
      ensures Threaded(s[..k] + [item] + s[k..], begin, endItem)
    {
      var r := s[..k] + [item] + s[k..];
      forall i | 0 <= i < |r|
        ensures r[i].prev == PrevAt(r, i) && r[i].next == NextAt(r, i, endItem)
      {
        if i < k { assert r[i] == s[i]; } else if i > k { assert r[i] == s[i - 1]; }
      }
    }

    /** Takes the item at index `k` out of the list; its own `next` stays. */
    method Unlink(item: Item<V>, ghost s: seq<Item<V>>, ghost k: nat)
      requires Threaded(s, begin, endItem) && Distinct(s) && forall j :: 0 <= j < |s| ==> s[j] != endItem
      requires k < |s| && item == s[k]
      modifies this`begin, Members(s)`next, Members(s)`prev, endItem`prev
      ensures Threaded(s[..k] + s[k + 1..], begin, endItem)
      ensures item.next == (if k + 1 == |s| then endItem else s[k + 1])
    {
      hide Threaded, Distinct, PrevAt, NextAt;
      ThreadPlaces(s);
      Beside(s, k);
      Alone(s, k - 1);
      Alone(s, k);
      Alone(s, k + 1);
      if item.prev == null {
        begin := item.next;
        begin.prev := null;
      } else {
        item.prev.next := item.next;
        item.prev.next.prev := item.prev;
      }
      ThreadedWithout(s, k);
    }

    lemma ThreadPlaces(s: seq<Item<V>>)
      requires Threaded(s, begin, endItem)
      ensures forall i :: 0 <= i < |s| ==> s[i].prev == PrevAt(s, i) && s[i].next == NextAt(s, i, endItem)
      ensures endItem.prev == PrevAt(s, |s|) && begin == if s == [] then endItem else s[0]
    {
    }

    /** What stands before and behind place `k`. */
    lemma Beside(s: seq<Item<V>>, k: nat)
      requires k < |s|
      ensures PrevAt(s, k) == (if k == 0 then null else s[k - 1]) && PrevAt(s, |s|) == s[|s| - 1]
      ensures NextAt(s, k, endItem) == if k + 1 == |s| then endItem else s[k + 1]
    {
    }

    lemma ThreadedWithout(s: seq<Item<V>>, k: nat)
      requires k < |s|
      requires forall j :: 0 <= j < |s| && j != k - 1 ==> s[j].next == NextAt(s, j, endItem)
      requires forall j :: 0 <= j < |s| && j != k + 1 ==> s[j].prev == PrevAt(s, j)
      requires k > 0 ==> s[k - 1].next == if k + 1 == |s| then endItem else s[k + 1]
      requires k + 1 < |s| ==> s[k + 1].prev == if k == 0 then null else s[k - 1]
      requires endItem.prev == (if k + 1 < |s| then s[|s| - 1] else if k == 0 then null else s[k - 1])
      requires begin == (if k > 0 then s[0] else if |s| == 1 then endItem else s[1])
      ensures Threaded(s[..k] + s[k + 1..], begin, endItem)
    {
      var r := s[..k] + s[k + 1..];
      forall i | 0 <= i < |r|
        ensures r[i].prev == PrevAt(r, i) && r[i].next == NextAt(r, i, endItem)
      {
        if i < k { assert r[i] == s[i]; } else { assert r[i] == s[i + 1]; }
      }
    }

    // ---- storage ----

    static lemma ChainedCons(x: Item<V>, s: seq<Item<V>>)
      requires Chained(s, x.prev)
      ensures Chained([x] + s, x)
    {
      var r := [x] + s;
      forall i | 0 <= i < |r| ensures r[i].prev == AfterAt(r, i) {
        if i > 0 { assert r[i] == s[i - 1] && s[i - 1].prev == AfterAt(s, i - 1); }
      }
    }

    static lemma ChainedTail(s: seq<Item<V>>, head: Item<V>)
      requires Chained(s, head)
      ensures s != [] && s[0] == head && Chained(s[1..], head.prev)
    {
      var r := s[1..];
      assert s[0].prev == AfterAt(s, 0);
      forall i | 0 <= i < |r| ensures r[i].prev == AfterAt(r, i) {
        assert r[i] == s[i + 1] && s[i + 1].prev == AfterAt(s, i + 1);
      }
    }

    /** Storage for an item: from the free chain, or the first of a new block whose others are chained. */
    static lemma ChainHead(s: seq<Item<V>>, head: Item?<V>)
      requires Chained(s, head)
      ensures s == [] <==> head == null
    {
    }

    static lemma DistinctTail(s: seq<Item<V>>)
      requires Distinct(s) && s != []
      ensures Distinct(s[1..]) && s[0] !in Members(s[1..])
    {
      var r := s[1..];
      assert forall i :: 0 <= i < |r| ==> r[i] == s[i + 1];
    }

    static lemma DistinctCons(x: Item<V>, s: seq<Item<V>>)
      requires Distinct(s) && x !in Members(s)
      ensures Distinct([x] + s) && Members([x] + s) == {x} + Members(s)
    {
      DistinctWith(s, 0, x);
      assert s[..0] + [x] + s[0..] == [x] + s;
    }

    method Take() returns (item: Item<V>)
      requires Chained(free, freeItem) && Distinct(free)
      modifies this`freeItem, this`free
      ensures Chained(free, freeItem) && Distinct(free) && item !in Members(free)
      ensures old(free) != [] ==> item == old(free)[0] && free == old(free)[1..]
      ensures old(free) == [] ==> fresh(item) && fresh(Members(free))
    {
      hide Chained, Distinct, Members;
      ChainHead(free, freeItem);
      if freeItem != null {
        item := freeItem;
        ChainedTail(free, item);
        DistinctTail(free);
        freeItem := freeItem.prev;
        free := free[1..];
      } else {
        NoMembers();
        item := new Item<V>();
        for i := 1 to 4
          invariant Chained(free, freeItem) && Distinct(free) && fresh(Members(free)) && item !in Members(free) && fresh(item)
        {
          assert allocated(Members(free));
          var slot := new Item<V>();
          slot.prev := freeItem;
          freeItem := slot;
          ChainedCons(slot, free);
          DistinctCons(slot, free);
          free := [slot] + free;
        }
      }
    }

    // ---- insertion ----

    /** An existing item gets a new value. */
    method Overwrite(it: Item<V>, key: int, value: V)
      requires Valid() && IndexOf(entries, key) < |entries| == |items| && it == items[IndexOf(entries, key)]
      modifies this`entries, it`value
      ensures Valid() && entries == old(entries)[IndexOf(old(entries), key) := (key, value)]
      ensures it.value == value && Footprint() == old(Footprint())
    {
      hide ListOk, TableOk, FreeOk, Unique;
      ghost var i := IndexOf(entries, key);
      DistinctItems();
      Alone(items, i);
      InsertedUnique(entries, 0, key, value, true);
      assert allocated(Members(items)) && allocated(Members(free)) && allocated(Hung(chains));
      it.value := value;
      entries := entries[i := (key, value)];
    }

    lemma DistinctItems()
      requires Valid()
      ensures Distinct(items) && endItem !in Members(items) && Members(free) !! Members(items) && endItem !in Members(free)
      ensures |items| == |entries| && Hung(chains) <= Members(items) && capacity > 0 && |chains| == capacity
    {
      hide Threaded, Chained, AllChains, Unique, Buckets;
      HungInItems();
    }

    lemma HungInItems()
      requires Hashed(items, chains)
      ensures Hung(chains) <= Members(items) && Apart(chains)
    {
      forall x | x in Hung(chains) ensures x in Members(items) {
        var b :| 0 <= b < |chains| && x in chains[b];
      }
      forall a, b | 0 <= a < |chains| && 0 <= b < |chains| && a != b ensures Members(chains[a]) !! Members(chains[b]) {
        forall x | x in Members(chains[a]) ensures x !in Members(chains[b]) {
          assert x in chains[a] && hash(x.key) % capacity == a;
        }
      }
    }

    /** One more item, in the bucket of its hash. */
    lemma HashedMore(s: seq<Item<V>>, cs: seq<seq<Item<V>>>, item: Item<V>, s': seq<Item<V>>)
      requires Hashed(s, cs) && item !in Members(s) && Members(s') == Members(s) + {item}
      ensures var b := hash(item.key) % capacity; Hashed(s', cs[b := [item] + cs[b]])
    {
      var b := hash(item.key) % capacity;
      var r := [item] + cs[b];
      forall i, j | 0 <= i < j < |r| ensures r[i] != r[j] {
        assert r[j] == cs[b][j - 1] && cs[b][j - 1] in cs[b];
        if i > 0 { assert r[i] == cs[b][i - 1]; }
      }
    }

    lemma HashedLess(s: seq<Item<V>>, cs: seq<seq<Item<V>>>, item: Item<V>, s': seq<Item<V>>, k: nat)
      requires Hashed(s, cs) && item in Members(s) && Members(s') == Members(s) - {item}
      requires var b := hash(item.key) % capacity; k < |cs[b]| && cs[b][k] == item
      ensures var b := hash(item.key) % capacity; Hashed(s', cs[b := cs[b][..k] + cs[b][k + 1..]])
    {
      var b := hash(item.key) % capacity;
      var c, r := cs[b], cs[b][..k] + cs[b][k + 1..];
      assert forall i :: 0 <= i < |r| ==> r[i] == if i < k then c[i] else c[i + 1];
      forall x | x in c && x != item ensures x in r {
        var i :| 0 <= i < |c| && c[i] == x;
        assert r[if i < k then i else i - 1] == x;
      }
    }

    /** The table, at the first insertion. */
    method MakeTable()
      requires Valid() && data == null
      modifies this`data
      ensures Valid() && data != null && fresh(data) && Footprint() == old(Footprint()) + {data}
    {
      hide ListOk, FreeOk, EntriesOk, AllChains, Hashed;
      Capacity();
      var table := new Item?<V>[capacity](i => null);
      data := table;
    }

    /** A constructed item goes into the bucket of its hash. */
    method HangItem(item: Item<V>, ghost order: seq<Item<V>>)
      requires TableOk() && data != null && item !in Members(items) && Members(order) == Members(items) + {item}
      modifies this`chains, this`items, data, item`cell, item`nextCell, Members(items)`cell
      ensures TableOk() && items == order
    {
      hide AllChains, Hashed, Hung, Apart, Members;
      HungInItems();
      HashedMore(items, chains, item, order);
      BucketOf(item.key);
      var hashCode := hash(item.key);
      ghost var d, cs, b := data[..], chains, hashCode % capacity;
      assert allocated(Members(order)) && Hashed(order, cs[b := [item] + cs[b]]);
      Hang(item, hashCode % capacity);
      items := order;
      BucketsNow(d, cs, b);
    }

    /** The buckets after one of them changed. */
    lemma BucketsNow(d: seq<Item?<V>>, cs: seq<seq<Item<V>>>, b: nat)
      requires data != null && data.Length == |d| == |cs| == |chains| == capacity && b < capacity
      requires forall k :: 0 <= k < capacity ==> d[k] == Head(cs[k])
      requires chains == cs[b := chains[b]] && data[..] == d[b := Head(chains[b])]
      ensures Buckets()
    {
      forall k | 0 <= k < capacity ensures data[k] == Head(chains[k]) { assert data[..][k] == data[k]; }
    }

    lemma BucketOf(key: int)
      requires Hashed(items, chains)
      ensures capacity > 0 && |chains| == capacity && Distinct(chains[hash(key) % capacity])
      ensures Members(chains[hash(key) % capacity]) <= Members(items)
    {
      forall x | x in chains[hash(key) % capacity] ensures x in Members(items) {}
    }

    /** All that the map reads belongs to it. */
    lemma Reach()
      requires Valid()
      ensures Members(items) <= Footprint() && Hung(chains) <= Footprint() && Members(free) <= Footprint()
    {
      DistinctItems();
    }

    /** A map none of whose objects change stays as it is. */
    twostate lemma Untouched(reach: set<object>)
      requires old(Valid()) && reach == old(Footprint()) && unchanged(reach)
      ensures Valid() && entries == old(entries) && Footprint() == reach
    {
      assert unchanged(this) && unchanged(endItem) && unchanged(Members(items)) && unchanged(Members(free));
      assert data != null ==> unchanged(data);
      KeptValid();
    }

    twostate lemma KeptValid()
      requires old(Valid()) && unchanged(this) && unchanged(endItem) && unchanged(Members(items)) && unchanged(Members(free))
      requires data != null ==> unchanged(data)
      ensures Valid()
    {
      hide Threaded, Chained, AllChains, Hashed, Distinct, Holds, Unique, Head;
      KeptTable();
      assert ListOk() && FreeOk(Members(items)) && EntriesOk();
    }

    twostate lemma KeptTable()
      requires old(TableOk()) && unchanged(this) && unchanged(Members(items)) && (data != null ==> unchanged(data))
      ensures TableOk()
    {
      hide AllChains, Head, Hung;
      assert Hashed(items, chains);
      HungInItems();
      ChainsKept(chains);
      assert Buckets();
    }

    /** The position before which the item number `pos` stands, or the end. */
    method Seek(pos: nat) returns (position: Item<V>, ghost p: nat)
      requires Valid()
      ensures Valid() && At(position, p) && p == if pos < |items| then pos else |items|
    {
      hide Valid;
      position := begin;
      var k := 0;
      SeekStart();
      while position != endItem && k < pos
        invariant Valid() && k <= pos && At(position, k)
        decreases pos - k
      {
        SeekOn(k);
        position := position.next;
        k := k + 1;
      }
      SeekOn(k);
      p := k;
    }

    lemma SeekStart()
      requires Valid()
      ensures At(begin, 0)
    {
      hide TableOk, FreeOk, EntriesOk;
    }

    lemma SeekOn(p: nat)
      requires Valid() && p <= |items|
      ensures p < |items| ==> items[p] != endItem && items[p].next != null && At(items[p].next, p + 1)
    {
      hide TableOk, FreeOk, EntriesOk;
    }

    /** Where a position is in the list. */
    ghost predicate At(position: Item<V>, pos: nat)
      reads this`items
    {
      pos <= |items| && position == if pos == |items| then endItem else items[pos]
    }

    /** Storage for a new item, constructed. */
    method NewItem(key: int, value: V) returns (item: Item<V>)
      requires Valid()
      modifies this`freeItem, this`free, Members(free)`key, Members(free)`value
      ensures Valid() && item !in Members(items) && item !in Members(free) && item != endItem
      ensures item.key == key && item.value == value
      ensures old(free) != [] ==> item == old(free)[0] && free == old(free)[1..]
      ensures old(free) == [] ==> fresh(item) && fresh(Members(free))
    {
      hide ListOk, TableOk, EntriesOk, Chained, Distinct;
      assert allocated(Members(items)) && allocated(Members(free)) && allocated(endItem) && allocated(Hung(chains));
      ghost var was := free;
      DistinctItems();
      item := Take();
      assert was != [] ==> was[0] in Members(was) && Members(was[1..]) <= Members(was);
      item.Construct(key, value);
    }

    /** A constructed item goes into its bucket and into the list. */
    method PlaceItem(it: Item<V>, position: Item<V>, ghost pos: nat)
      requires Valid() && data != null && At(position, pos) && IndexOf(entries, it.key) == |entries|
      requires it !in Members(items) && it !in Members(free) && it != endItem
      modifies this`chains, this`items, this`begin, this`size, this`entries, data, endItem`prev
      modifies it`cell, it`nextCell, it`next, it`prev, Members(items)`cell, Members(items)`next, Members(items)`prev
      ensures Valid() && items == old(items)[..pos] + [it] + old(items)[pos..]
      ensures entries == With(old(entries), pos, it.key, it.value)
    {
      hide Valid, TableOk, ListOk, FreeOk, EntriesOk, Threaded, Distinct, With, Holds, Unique, Members, IndexOf;
      ValidParts();
      ghost var s, e := items, entries;
      ghost var order := s[..pos] + [it] + s[pos..];
      DistinctItems();
      ListParts();
      OrderWith(s, pos, it);
      EntriesWith(pos, it, order);
      assert allocated(Members(order)) && allocated(Members(free)) && allocated(Members(s));
      HangItem(it, order);
      assert allocated(Hung(chains));
      ThreadItem(it, position, s, pos);
      entries := With(e, pos, it.key, it.value);
      EntriesWhole();
      FreeAfter(Members(s), it);
      ValidParts();
    }

    lemma ValidParts()
      ensures Valid() <==> ListOk() && TableOk() && FreeOk(Members(items)) && EntriesOk()
    {
    }

    /** The list half of an insertion. */
    method ThreadItem(it: Item<V>, position: Item<V>, ghost s: seq<Item<V>>, ghost pos: nat)
      requires Threaded(s, begin, endItem) && Distinct(s) && size == |s|
      requires pos <= |s| && position == (if pos == |s| then endItem else s[pos])
      requires items == s[..pos] + [it] + s[pos..] && Distinct(items)
      requires it !in Members(s) && it != endItem && endItem !in Members(items) && endItem !in Members(s)
      modifies this`begin, this`size, it`next, it`prev, Members(s)`next, Members(s)`prev, endItem`prev
      ensures ListOk()
    {
      hide Threaded, Distinct;
      NotMember(s, it);
      NotMember(s, endItem);
      LinkAt(it, position, s, pos);
      size := size + 1;
    }

    lemma ListParts()
      requires ListOk()
      ensures Threaded(items, begin, endItem) && Distinct(items) && size == |items|
    {
    }

    lemma EntriesWhole()
      requires Holds(items, entries) && Unique(entries)
      ensures EntriesOk()
    {
    }

    lemma FreeAfter(live: set<Item<V>>, it: Item<V>)
      requires FreeOk(live) && it !in Members(free)
      ensures FreeOk(live + {it})
    {
    }

    /** The entries with the new one, before the fields change. */
    lemma EntriesWith(pos: nat, it: Item<V>, order: seq<Item<V>>)
      requires EntriesOk() && pos <= |items| && IndexOf(entries, it.key) == |entries|
      requires order == items[..pos] + [it] + items[pos..]
      ensures |items| == |entries| && Holds(order, With(entries, pos, it.key, it.value)) && Unique(With(entries, pos, it.key, it.value))
    {
      hide With, Unique;
      HoldsWith(items, entries, pos, it);
      WithUnique(entries, pos, it.key, it.value);
    }

    method AddItem(position: Item<V>, key: int, value: V, ghost pos: nat) returns (it: Item<V>)
      requires Valid() && data != null && At(position, pos) && IndexOf(entries, key) == |entries|
      modifies this`freeItem, this`free, this`chains, this`items, this`begin, this`size, this`entries, data, endItem`prev
      modifies Members(items)`cell, Members(items)`next, Members(items)`prev, Members(free)
      ensures Valid() && items == old(items)[..pos] + [it] + old(items)[pos..] && entries == With(old(entries), pos, key, value)
      ensures it.key == key && it.value == value
      ensures old(free) != [] ==> it == old(free)[0] && free == old(free)[1..]
      ensures old(free) == [] ==> fresh(it) && fresh(Members(free))
      ensures fresh(Footprint() - old(Footprint()))
    {
      hide Valid, With;
      it := NewItem(key, value);
      assert old(free) != [] ==> it in Members(old(free));
      PlaceItem(it, position, pos);
      MembersWith(old(items), pos, it);
      assert old(free) != [] ==> Members(old(free)[1..]) <= Members(old(free));
    }

    static lemma MembersWith(s: seq<Item<V>>, pos: nat, item: Item<V>)
      requires pos <= |s|
      ensures Members(s[..pos] + [item] + s[pos..]) == Members(s) + {item}
    {
      assert s == s[..pos] + s[pos..];
    }

    static lemma OrderWith(s: seq<Item<V>>, pos: nat, item: Item<V>)
      requires pos <= |s| && item !in Members(s)
      ensures var r := s[..pos] + [item] + s[pos..];
              Members(r) == Members(s) + {item} && |r| == |s| + 1 && (Distinct(s) ==> Distinct(r))
    {
      MembersWith(s, pos, item);
      if Distinct(s) { DistinctWith(s, pos, item); }
    }

    static lemma DistinctWith(s: seq<Item<V>>, pos: nat, item: Item<V>)
      requires pos <= |s| && item !in Members(s) && Distinct(s)
      ensures Distinct(s[..pos] + [item] + s[pos..])
    {
      var r := s[..pos] + [item] + s[pos..];
      assert forall i :: 0 <= i < |r| ==> r[i] == if i < pos then s[i] else if i == pos then item else s[i - 1];
      assert forall i :: 0 <= i < |s| ==> s[i] != item;
    }

    static lemma HoldsWith(s: seq<Item<V>>, e: Entries<V>, pos: nat, item: Item<V>)
      requires Holds(s, e) && pos <= |s|
      ensures |s| == |e| && Holds(s[..pos] + [item] + s[pos..], With(e, pos, item.key, item.value))
    {
      var r, w := s[..pos] + [item] + s[pos..], With(e, pos, item.key, item.value);
      forall j | 0 <= j < |r| ensures r[j].key == w[j].0 && r[j].value == w[j].1 {
        if j < pos { assert r[j] == s[j]; } else if j > pos { assert r[j] == s[j - 1]; }
      }
    }

    static lemma NotMember(s: seq<Item<V>>, x: Item<V>)
      requires x !in Members(s)
      ensures forall j :: 0 <= j < |s| ==> s[j] != x
    {
    }

    /** `insert` before a position; `prepend` and `append` insert at the ends. */
    method Insert(position: Item<V>, key: int, value: V, overwrite: bool, ghost pos: nat) returns (it: Item<V>)
      requires Valid() && At(position, pos)
      modifies this`freeItem, this`free, this`chains, this`items, this`begin, this`size, this`entries, this`data, data, endItem`prev
      modifies Members(items), Members(free)
      ensures Valid() && pos <= |old(entries)| && entries == Inserted(old(entries), pos, key, value, overwrite)
      ensures it.key == key && it in Members(items)
      ensures overwrite || IndexOf(old(entries), key) == |old(entries)| ==> it.value == value
      ensures fresh(Footprint() - old(Footprint()))
    {
      hide Valid, At, Inserted, With, Footprint;
      Capacity();
      Position(position, pos);
      it := Find(key);
      ghost var i := IndexOf(entries, key);
      if it != endItem {
        FoundAt(it, key);
        InsertedForms(entries, pos, key, value, overwrite);
        if overwrite {
          Overwrite(it, key, value);
        }
        return;
      }
      NotFound(key);
      InsertedForms(entries, pos, key, value, overwrite);
      if data == null {
        MakeTable();
      }
      ghost var mine := Footprint();
      label Placing:
      it := AddItem(position, key, value, pos);
      NewAt(old(items), pos, it);
      forall x | x in Footprint() && x !in old(Footprint()) ensures !old(allocated(x)) {
        assert x in mine || !old@Placing(allocated(x));
      }
    }

    lemma Position(position: Item<V>, pos: nat)
      requires At(position, pos)
      ensures pos <= |items|
    {
    }

    lemma FoundAt(it: Item<V>, key: int)
      requires Valid() && it != endItem
      requires |entries| == |items| && it == if IndexOf(entries, key) < |entries| then items[IndexOf(entries, key)] else endItem
      ensures IndexOf(entries, key) < |entries| && it in Members(items) && it.key == key
    {
    }

    lemma NotFound(key: int)
      requires Valid()
      requires |entries| == |items| && endItem == if IndexOf(entries, key) < |entries| then items[IndexOf(entries, key)] else endItem
      ensures IndexOf(entries, key) == |entries|
    {
      DistinctItems();
      NotMember(items, endItem);
    }

    static lemma InsertedForms(e: Entries<V>, pos: nat, key: int, value: V, overwrite: bool)
      requires pos <= |e|
      ensures var i := IndexOf(e, key);
              Inserted(e, pos, key, value, overwrite)
              == if i == |e| then With(e, pos, key, value) else if overwrite then e[i := (key, value)] else e
    {
    }

    static lemma NewAt(s: seq<Item<V>>, pos: nat, it: Item<V>)
      requires pos <= |s|
      ensures it in Members(s[..pos] + [it] + s[pos..])
    {
      assert (s[..pos] + [it] + s[pos..])[pos] == it;
    }

    // ---- removal ----

    /** Takes an item out of its bucket's chain. */
    method UnhangItem(item: Item<V>, ghost order: seq<Item<V>>)
      requires TableOk() && item in Members(items) && Members(order) == Members(items) - {item}
      modifies this`chains, this`items, data, Members(items)`cell, Members(items)`nextCell
      ensures TableOk() && items == order
    {
      hide AllChains, Hashed, Hung, Apart, Members;
      HungInItems();
      BucketOf(item.key);
      ghost var b := hash(item.key) % capacity;
      ghost var k := InBucket(item);
      HashedLess(items, chains, item, order, k);
      ghost var d, cs := data[..], chains;
      assert allocated(Members(order)) && Hashed(order, cs[b := cs[b][..k] + cs[b][k + 1..]]);
      Unhang(item, b, k);
      items := order;
      BucketsNow(d, cs, b);
    }

    lemma InBucket(item: Item<V>) returns (k: nat)
      requires TableOk() && item in Members(items)
      ensures |chains| == capacity && capacity > 0 && data != null
      ensures var c := chains[hash(item.key) % capacity]; k < |c| && c[k] == item
    {
      hide AllChains;
      var c := chains[hash(item.key) % capacity];
      k :| 0 <= k < |c| && c[k] == item;
    }

    /** `remove` of a position: returns the position after it. */
    method RemoveAt(it: Item<V>) returns (next: Item<V>, ghost i: nat)
      requires Valid() && it in Members(items)
      modifies this`freeItem, this`free, this`chains, this`items, this`begin, this`size, this`entries, data, endItem`prev
      modifies Members(items)`cell, Members(items)`nextCell, Members(items)`next, Members(items)`prev
      ensures Valid() && i < |old(items)| == |old(entries)| && old(items)[i] == it && old(entries)[i].0 == it.key
      ensures items == old(items)[..i] + old(items)[i + 1..] && entries == Without(old(entries), i)
      ensures free == [it] + old(free) && next == NextAt(old(items), i, endItem) && IndexOf(old(entries), it.key) == i
      ensures Footprint() == old(Footprint())
    {
      hide Valid, TableOk, ListOk, FreeOk, EntriesOk, Threaded, Distinct, Without, Holds, Unique, Members, Footprint;
      ghost var s, e := items, entries;
      ValidParts();
      DistinctItems();
      ListParts();
      i := EntryOf(it);
      ghost var order := s[..i] + s[i + 1..];
      OrderWithout(s, i);
      EntriesWithout(i, order);
      assert allocated(Members(order)) && allocated(Members(free)) && allocated(Members(s));
      UnhangItem(it, order);
      assert allocated(Hung(chains));
      next := Drop(it, s, i);
      entries := Without(e, i);
      EntriesWhole();
      ValidParts();
      FootprintMoved(it);
    }

    /** An item that goes from the list to the free chain stays in the footprint. */
    twostate lemma FootprintMoved(it: Item<V>)
      requires it in Members(old(items)) && Members(items) == Members(old(items)) - {it}
      requires free == [it] + old(free) && data == old(data)
      ensures Footprint() == old(Footprint())
    {
      assert Members(items) + Members(free) == Members(old(items)) + Members(old(free));
    }

    static lemma OrderWithout(s: seq<Item<V>>, i: nat)
      requires i < |s| && Distinct(s)
      ensures var r := s[..i] + s[i + 1..]; Members(r) == Members(s) - {s[i]} && |r| == |s| - 1 && Distinct(r)
    {
      var r := s[..i] + s[i + 1..];
      assert forall j :: 0 <= j < |r| ==> r[j] == if j < i then s[j] else s[j + 1];
      forall x ensures x in Members(r) <==> x in Members(s) - {s[i]} {
        if x in s && x != s[i] {
          var j :| 0 <= j < |s| && s[j] == x;
          assert r[if j < i then j else j - 1] == x;
        }
      }
    }

    lemma EntriesWithout(i: nat, order: seq<Item<V>>)
      requires EntriesOk() && i < |items| && order == items[..i] + items[i + 1..]
      ensures |items| == |entries| && Holds(order, Without(entries, i)) && Unique(Without(entries, i))
    {
      WithoutUnique(entries, i);
      var w := Without(entries, i);
      forall j | 0 <= j < |order| ensures order[j].key == w[j].0 && order[j].value == w[j].1 {
        if j < i { assert order[j] == items[j]; } else { assert order[j] == items[j + 1]; }
      }
    }

    /** The list half of a removal, and the storage. */
    method Drop(it: Item<V>, ghost s: seq<Item<V>>, ghost i: nat) returns (next: Item<V>)
      requires Threaded(s, begin, endItem) && Distinct(s) && size == |s| && i < |s| && s[i] == it && endItem !in Members(s)
      requires items == s[..i] + s[i + 1..] && Distinct(items) && Members(items) == Members(s) - {it}
      requires FreeOk(Members(s))
      modifies this`begin, this`size, this`freeItem, this`free, Members(s)`next, Members(s)`prev, endItem`prev
      ensures ListOk() && FreeOk(Members(items)) && free == [it] + old(free)
      ensures next == NextAt(s, i, endItem)
    {
      hide Threaded, Distinct, FreeOk;
      NotMember(s, endItem);
      FreeFacts(Members(s));
      assert it in Members(s) && allocated(Members(s)) && allocated(Members(free)) && allocated(Members(items));
      Unlink(it, s, i);
      size := size - 1;
      assert Threaded(items, begin, endItem);
      Release(it, Members(s));
      next := it.next;
    }

    /** An item's storage goes to the free chain. */
    method Release(it: Item<V>, ghost live: set<Item<V>>)
      requires FreeOk(live) && it in live && it != endItem
      modifies this`freeItem, this`free, it`prev
      ensures FreeOk(live - {it}) && free == [it] + old(free)
    {
      hide Chained, Distinct, Members;
      FreeFacts(live);
      it.prev := freeItem;
      freeItem := it;
      ChainedCons(it, free);
      FreeCons(free, it);
      free := [it] + free;
    }

    lemma FreeFacts(live: set<Item<V>>)
      requires FreeOk(live)
      ensures Chained(free, freeItem) && Distinct(free) && endItem !in Members(free) && Members(free) !! live
    {
    }

    static lemma FreeCons(free: seq<Item<V>>, it: Item<V>)
      requires Distinct(free) && it !in Members(free)
      ensures Distinct([it] + free) && Members([it] + free) == {it} + Members(free)
    {
      NotMember(free, it);
      var r := [it] + free;
      assert forall i :: 0 < i < |r| ==> r[i] == free[i - 1];
    }

    /** `remove` of a key. */
    method Remove(key: int)
      requires Valid()
      modifies this`freeItem, this`free, this`chains, this`items, this`begin, this`size, this`entries, data, endItem`prev
      modifies Members(items)`cell, Members(items)`nextCell, Members(items)`next, Members(items)`prev
      ensures Valid() && Footprint() == old(Footprint())
      ensures entries == if IndexOf(old(entries), key) < |old(entries)| then Without(old(entries), IndexOf(old(entries), key)) else old(entries)
    {
      hide Valid, Without;
      var it := Find(key);
      if it != endItem {
        FoundAt(it, key);
        ghost var j := EntryOf(it);
        ghost var next, i := RemoveAt(it);
      } else {
        NotFound(key);
      }
    }

    // ---- clearing ----

    static ghost function Backwards(s: seq<Item<V>>): seq<Item<V>> {
      if s == [] then [] else [s[|s| - 1]] + Backwards(s[..|s| - 1])
    }

    /** The `next` half of the list. */
    ghost predicate Forward(s: seq<Item<V>>)
      reads Members(s)`next
    {
      forall j :: 0 <= j < |s| ==> s[j].next == NextAt(s, j, endItem)
    }

    lemma ForwardStart(s: seq<Item<V>>)
      requires Threaded(s, begin, endItem)
      ensures Forward(s) && begin == (if s == [] then endItem else s[0]) && Backwards(s[..0]) == []
    {
    }

    lemma ForwardAt(s: seq<Item<V>>, k: nat)
      requires Forward(s) && k < |s|
      ensures s[k].next == NextAt(s, k, endItem)
    {
    }

    /** Every item of the chains still knows its slot. */
    ghost predicate Celled(cs: seq<seq<Item<V>>>)
      reads Hung(cs)`cell
    {
      forall b, i :: 0 <= b < |cs| && 0 <= i < |cs[b]| ==> cs[b][i] in Hung(cs) && cs[b][i].cell == CellAt(cs[b], i, b)
    }

    /** The buckets that are not empty yet point to items that are still to come. */
    ghost predicate Emptying(cs: seq<seq<Item<V>>>, rest: set<Item<V>>)
      reads this`data, data
    {
      data != null ==>
        data.Length == |cs| && forall b :: 0 <= b < |cs| ==> data[b] == null || (cs[b] != [] && data[b] == cs[b][0] && cs[b][0] in rest)
    }

    lemma ClearStart()
      requires TableOk()
      ensures Celled(chains) && Emptying(chains, Members(items))
    {
      hide Hashed;
      BucketHeads();
      forall b, i | 0 <= b < |chains| && 0 <= i < |chains[b]| ensures chains[b][i].cell == CellAt(chains[b], i, b) {
        ChainAt(chains[b], b, i);
      }
    }

    lemma BucketHeads()
      requires TableOk()
      ensures |chains| == capacity && forall b :: 0 <= b < |chains| && chains[b] != [] ==> chains[b][0] in Members(items)
    {
      hide AllChains;
    }

    /** `*i->cell = 0`. */
    method ClearCell(it: Item<V>, ghost s: seq<Item<V>>, ghost cs: seq<seq<Item<V>>>, ghost rest: set<Item<V>>)
      requires Hashed(s, cs) && Celled(cs) && data != null && Emptying(cs, rest) && it in Members(s)
      modifies data, Hung(cs)`nextCell
      ensures Emptying(cs, rest - {it})
    {
      ghost var b, k := CellOf(it, s, cs);
      ghost var d := data[..];
      match it.cell {
        case Bucket(i) => data[i] := null;
        case Behind(before) => before.nextCell := null;
      }
      forall a | 0 <= a < |cs| && data[a] != null ensures cs[a] != [] && data[a] == cs[a][0] && cs[a][0] in rest - {it} {
        assert data[a] == d[a];
      }
    }

    /** The place of an item in the chains. */
    lemma CellOf(it: Item<V>, s: seq<Item<V>>, cs: seq<seq<Item<V>>>) returns (b: nat, k: nat)
      requires Hashed(s, cs) && Celled(cs) && it in Members(s)
      ensures b < |cs| == capacity && k < |cs[b]| && cs[b][k] == it && it.cell == CellAt(cs[b], k, b)
      ensures k > 0 ==> cs[b][k - 1] in Hung(cs)
      ensures forall a :: 0 <= a < |cs| && cs[a] != [] && cs[a][0] == it ==> a == b && k == 0
    {
      b := hash(it.key) % capacity;
      k :| 0 <= k < |cs[b]| && cs[b][k] == it;
      forall a | 0 <= a < |cs| && cs[a] != [] && cs[a][0] == it ensures a == b && k == 0 {
        assert cs[a][0] in cs[a];
      }
    }

    /** Empties the slots and puts the storage of the whole list on the free chain. */
    method ReleaseAll(ghost s: seq<Item<V>>, ghost cs: seq<seq<Item<V>>>)
      requires Threaded(s, begin, endItem) && Distinct(s) && FreeOk(Members(s))
      requires Hashed(s, cs) && Celled(cs) && Emptying(cs, Members(s)) && (data == null ==> s == []) && endItem !in Members(s)
      modifies this`freeItem, this`free, data, Hung(cs)`nextCell, Members(s)`prev
      ensures FreeOk({}) && free == Backwards(s) + old(free) && Emptying(cs, {})
    {
      hide Threaded, Distinct, FreeOk, Hashed, Celled, Emptying, Forward, Backwards, Chained, Members, Hung;
      var i := begin;
      ghost var k := 0;
      ForwardStart(s);
      NotMember(s, endItem);
      assert s[0..] == s && s[..0] == [] && [] + free == free && allocated(Members(s)) && allocated(Hung(cs));
      while i != endItem
        invariant k <= |s| && i == (if k == |s| then endItem else s[k])
        invariant Forward(s) && Hashed(s, cs) && Celled(cs) && Emptying(cs, Members(s[k..]))
        invariant FreeOk(Members(s[k..])) && free == Backwards(s[..k]) + old(free)
        decreases |s| - k
      {
        TailMembers(s, k);
        assert allocated(Members(free));
        ClearCell(i, s, cs, Members(s[k..]));
        Release(i, Members(s[k..]));
        BackwardsSnoc(s[..k], i);
        ForwardAt(s, k);
        i := i.next;
        k := k + 1;
      }
      assert s[k..] == [] && s[..k] == s;
      NoMembers();
    }

    static lemma NoMembers()
      ensures Members<Item<V>>([]) == {}
    {
    }

    static lemma {:induction false} BackwardsMembers(s: seq<Item<V>>)
      ensures Members(Backwards(s)) == Members(s)
    {
      if s != [] {
        var rest, x := s[..|s| - 1], s[|s| - 1];
        BackwardsMembers(rest);
        assert s == rest + [x] && Members(s) == Members(rest) + {x};
        assert Members([x] + Backwards(rest)) == {x} + Members(Backwards(rest));
      }
    }

    static lemma BackwardsSnoc(s: seq<Item<V>>, x: Item<V>)
      ensures Backwards(s + [x]) == [x] + Backwards(s)
    {
      assert (s + [x])[..|s|] == s;
    }

    static lemma TailMembers(s: seq<Item<V>>, k: nat)
      requires Distinct(s) && k < |s|
      ensures Members(s[k + 1..]) == Members(s[k..]) - {s[k]} && s[k] in Members(s[k..]) && s[k] in Members(s)
      ensures s[..k + 1] == s[..k] + [s[k]]
    {
      var a, b := s[k..], s[k + 1..];
      assert a == [s[k]] + b && a[0] == s[k];
    }

    method Clear()
      requires Valid()
      modifies this`freeItem, this`free, this`chains, this`items, this`begin, this`size, this`entries, data, endItem`prev
      modifies Hung(chains)`nextCell, Members(items)`prev
      ensures Valid() && entries == [] && items == [] && free == Backwards(old(items)) + old(free)
      ensures Footprint() == old(Footprint())
    {
      hide Valid, ListOk, TableOk, FreeOk, EntriesOk, Threaded, Distinct, Hashed, Celled, Emptying, Chained, Backwards, Footprint;
      ghost var s, cs := items, chains;
      ValidParts();
      ListParts();
      DistinctItems();
      ClearStart();
      TableParts();
      ReleaseAll(s, cs);
      EndNotFree();
      assert allocated(Members(free)) && allocated(Hung(cs));
      begin := endItem;
      endItem.prev := null;
      size := 0;
      items, entries := [], [];
      chains := seq(|cs|, i => []);
      NothingLeft(cs);
      FootprintFreed();
    }

    twostate lemma FootprintFreed()
      requires items == [] && free == Backwards(old(items)) + old(free) && data == old(data)
      ensures Footprint() == old(Footprint())
    {
      BackwardsMembers(old(items));
      assert Members(free) == Members(old(items)) + Members(old(free));
    }

    lemma TableParts()
      requires TableOk()
      ensures Hashed(items, chains) && |chains| == capacity > 0 && (data == null ==> items == [])
    {
      hide AllChains;
      if items != [] { var x := items[0]; assert x in chains[hash(x.key) % capacity]; }
    }

    lemma EndNotFree()
      requires FreeOk({})
      ensures endItem !in Members(free)
    {
    }

    lemma NothingLeft(cs: seq<seq<Item<V>>>)
      requires Emptying(cs, {}) && |cs| == capacity > 0 && chains == seq(|cs|, i => []) && items == [] && entries == [] && size == 0
      requires begin == endItem && endItem.prev == null && FreeOk({})
      ensures Valid()
    {
      assert data != null ==> forall b :: 0 <= b < capacity ==> data[b] == null;
    }

    /** One change to the map. */
    method Apply(c: Change<V>)
      requires Valid()
      modifies Footprint()
      ensures Valid() && entries == Changed(old(entries), c)
      ensures fresh(Footprint() - old(Footprint()))
    {
      hide Valid, Inserted, Without, IndexOf, At;
      Reach();
      DistinctItems();
      match c {
        case Insertion(pos, key, value, overwrite) =>
          var position;
          ghost var p;
          position, p := Seek(pos);
          var it := Insert(position, key, value, overwrite, p);
        case Removal(key) =>
          Remove(key);
        case Clearing =>
          Clear();
      }
    }

    // ---- exchange ----

    /** Two maps that share no item, no storage and no table. */
    ghost predicate Separate(other: HashMap<V>)
      reads this, other
    {
      Footprint() !! other.Footprint()
    }

    /** This map has the table, the storage and the entries that the other one had. */
    twostate predicate Took(other: HashMap<V>)
      reads this
    {
      && hash == other.hash && capacity == old(other.capacity) && data == old(other.data) && freeItem == old(other.freeItem)
      && items == old(other.items) && chains == old(other.chains) && free == old(other.free) && entries == old(other.entries)
    }

    /** The links of a list, but for the ones that name its ends. */
    static ghost predicate Inner(s: seq<Item<V>>)
      reads Members(s)`next, Members(s)`prev
    {
      && (forall i :: 0 <= i < |s| ==> s[i].prev == PrevAt(s, i))
      && (forall i :: 0 <= i < |s| && i + 1 < |s| ==> s[i].next == s[i + 1])
    }

    static lemma InnerOf(s: seq<Item<V>>, begin: Item<V>, end: Item<V>)
      requires Threaded(s, begin, end)
      ensures Inner(s) && end.prev == PrevAt(s, |s|) && (s != [] ==> begin == s[0])
    {
    }

    /** Takes over the list from `first` to `last`, with the table and the storage that belong to it. */
    method TakeOver(first: Item<V>, last: Item?<V>, size: nat, capacity: nat, data: array?<Item?<V>>, freeItem: Item?<V>,
                    ghost s: seq<Item<V>>, ghost cs: seq<seq<Item<V>>>, ghost fr: seq<Item<V>>, ghost e: Entries<V>)
      requires Inner(s) && last == PrevAt(s, |s|) && (s != [] ==> first == s[0]) && endItem !in Members(s) && Distinct(s)
      modifies this`begin, this`size, this`capacity, this`data, this`freeItem, this`items, this`chains, this`free, this`entries
      modifies endItem`prev, Single(last)`next
      ensures Threaded(s, begin, endItem) && this.size == size && this.capacity == capacity
      ensures this.data == data && this.freeItem == freeItem
      ensures items == s && chains == cs && free == fr && entries == e
    {
      endItem.prev := last;
      if endItem.prev != null {
        endItem.prev.next := endItem;
        begin := first;
      } else {
        begin := endItem;
      }
      this.size, this.capacity, this.data, this.freeItem := size, capacity, data, freeItem;
      items, chains, free, entries := s, cs, fr, e;
    }

    twostate lemma HashedMoved(other: HashMap<V>)
      requires old(other.Hashed(other.items, other.chains)) && Took(other)
      requires forall x :: x in old(Members(other.items)) ==> x.key == old(x.key)
      ensures Hashed(items, chains)
    {
    }

    twostate lemma BucketsMoved(other: HashMap<V>)
      requires old(|other.chains| == other.capacity && other.Buckets()) && Took(other)
      requires data != null ==> data[..] == old(other.data[..])
      ensures Buckets()
    {
      hide Head;
      assert data != null ==> forall b :: 0 <= b < capacity ==> data[b] == old(other.data[..])[b];
    }

    static twostate lemma ChainsKept(cs: seq<seq<Item<V>>>)
      requires old(AllChains(cs))
      requires forall x :: x in Hung(cs) ==> x.cell == old(x.cell) && x.nextCell == old(x.nextCell)
      ensures AllChains(cs)
    {
      forall b | 0 <= b < |cs| ensures Members(cs[b]) <= Hung(cs) && Chain(cs[b], b) {
        assert old(Chain(cs[b], b));
        forall i | 0 <= i < |cs[b]| ensures cs[b][i].cell == CellAt(cs[b], i, b) && cs[b][i].nextCell == AfterAt(cs[b], i) {
          assert cs[b][i] in Hung(cs);
        }
      }
    }

    twostate lemma TableMoved(other: HashMap<V>)
      requires old(other.TableOk()) && Took(other)
      requires data != null ==> data[..] == old(other.data[..])
      requires forall x :: x in old(Members(other.items)) ==> x.key == old(x.key)
      requires forall x :: x in old(Hung(other.chains)) ==> x.cell == old(x.cell) && x.nextCell == old(x.nextCell)
      ensures TableOk()
    {
      hide Hashed, Buckets, AllChains, Members, Hung;
      HashedMoved(other);
      HashedCapacity(items, chains);
      BucketsMoved(other);
      ChainsKept(chains);
    }

    lemma HashedCapacity(s: seq<Item<V>>, cs: seq<seq<Item<V>>>)
      requires Hashed(s, cs)
      ensures |cs| == capacity
    {
    }

    twostate lemma RestMoved(other: HashMap<V>)
      requires old(other.FreeOk(Members(other.items)) && other.EntriesOk()) && Took(other) && endItem !in Members(free)
      requires forall x :: x in old(Members(other.items)) ==> x.key == old(x.key) && x.value == old(x.value)
      requires forall x :: x in old(Members(other.free)) ==> x.prev == old(x.prev)
      ensures FreeOk(Members(items)) && EntriesOk()
    {
    }

    /** `swap`: each map becomes what the other was; the items stay where they are. A map may be swapped with itself. */
    method Swap(other: HashMap<V>)
      requires Valid() && other.Valid() && hash == other.hash && (other == this || Separate(other))
      modifies this`begin, this`size, this`capacity, this`data, this`freeItem, this`items, this`chains, this`free, this`entries
      modifies other`begin, other`size, other`capacity, other`data, other`freeItem, other`items, other`chains, other`free, other`entries
      modifies endItem`prev, other.endItem`prev, Members(items)`next, Members(other.items)`next
      ensures Valid() && other.Valid() && (other == this || Separate(other)) && Took(other) && other.Took(this)
      ensures Footprint() + other.Footprint() == old(Footprint() + other.Footprint())
    {
      hide Valid, Separate, Footprint, TableOk, FreeOk, EntriesOk, Threaded, Distinct, Inner, Members, Hung;
      ghost var s, t := items, other.items;
      ghost var cs, fr, e := chains, free, entries;
      SwapParts(other);
      InnerOf(s, begin, endItem);
      InnerOf(t, other.begin, other.endItem);
      assert allocated(Members(s)) && allocated(Members(t)) && allocated(Hung(cs)) && allocated(Hung(other.chains));
      assert allocated(Members(fr)) && allocated(Members(other.free));
      var tmpFirst, tmpLast, tmpSize, tmpCapacity, tmpData, tmpFreeItem := begin, endItem.prev, size, capacity, data, freeItem;
      TakeOver(other.begin, other.endItem.prev, other.size, other.capacity, other.data, other.freeItem,
               t, other.chains, other.free, other.entries);
      if other == this { InnerOf(s, begin, endItem); }
      other.TakeOver(tmpFirst, tmpLast, tmpSize, tmpCapacity, tmpData, tmpFreeItem, s, cs, fr, e);
      BodyMoved(other);
      other.BodyMoved(this);
      if other != this { SeparateStill(other); }
      FootprintsSwapped(other);
      Whole();
      other.Whole();
    }

    lemma Whole()
      requires Threaded(items, begin, endItem) && Distinct(items) && size == |items| && endItem !in Members(items)
      requires TableOk() && FreeOk(Members(items)) && EntriesOk()
      ensures Valid()
    {
    }

    twostate lemma FootprintsSwapped(other: HashMap<V>)
      requires Took(other) && other.Took(this)
      ensures Footprint() + other.Footprint() == old(Footprint() + other.Footprint())
    {
    }

    twostate lemma SeparateStill(other: HashMap<V>)
      requires old(Separate(other)) && Took(other) && other.Took(this)
      requires old(endItem !in Members(items) + Members(free) && other.endItem !in Members(other.items) + Members(other.free))
      ensures Separate(other)
    {
    }

    twostate lemma BodyMoved(other: HashMap<V>)
      requires old(other.TableOk() && other.FreeOk(Members(other.items)) && other.EntriesOk()) && Took(other)
      requires data != null ==> unchanged(data)
      requires unchanged(old(Members(other.items))`key, old(Members(other.items))`value)
      requires unchanged(old(Hung(other.chains))`cell, old(Hung(other.chains))`nextCell, old(Members(other.free))`prev)
      requires endItem !in Members(free)
      ensures TableOk() && FreeOk(Members(items)) && EntriesOk()
    {
      hide TableOk, FreeOk, EntriesOk;
      TableMoved(other);
      RestMoved(other);
    }

    lemma SwapParts(other: HashMap<V>)
      requires Valid() && other.Valid() && (other == this || Separate(other))
      ensures other != this ==> endItem != other.endItem && Members(items) !! Members(other.items)
      ensures other != this ==> Members(items) !! Members(other.free) && Members(free) !! Members(other.items)
      ensures Threaded(items, begin, endItem) && Distinct(items) && size == |items|
      ensures Threaded(other.items, other.begin, other.endItem) && Distinct(other.items) && other.size == |other.items|
      ensures TableOk() && FreeOk(Members(items)) && EntriesOk()
      ensures other.TableOk() && other.FreeOk(Members(other.items)) && other.EntriesOk()
      ensures endItem !in Members(items) && endItem !in Members(free) && endItem !in Members(other.items) && endItem !in Members(other.free)
      ensures other.endItem !in Members(items) && other.endItem !in Members(free)
      ensures other.endItem !in Members(other.items) && other.endItem !in Members(other.free)
      ensures PrevAt(items, |items|) != null ==> PrevAt(items, |items|) in Members(items)
      ensures PrevAt(other.items, |other.items|) != null ==> PrevAt(other.items, |other.items|) in Members(other.items)
    {
    }
  }

  // ---- histories of two maps ----

  /** A change of one of two maps, or their exchange. */
  datatype Step<V> = OnFirst(c: Change<V>) | OnSecond(c: Change<V>) | Exchange

  function Stepped<V>(p: (Entries<V>, Entries<V>), s: Step<V>): (Entries<V>, Entries<V>) {
    match s
    case OnFirst(c) => (Changed(p.0, c), p.1)
    case OnSecond(c) => (p.0, Changed(p.1, c))
    case Exchange => (p.1, p.0)
  }

  function TwoHistory<V>(steps: seq<Step<V>>): (Entries<V>, Entries<V>) {
    if steps == [] then ([], []) else Stepped(TwoHistory(steps[..|steps| - 1]), steps[|steps| - 1])
  }

  function MapStepped<V>(p: (map<int, V>, map<int, V>), s: Step<V>): (map<int, V>, map<int, V>) {
    match s
    case OnFirst(c) => (MapChanged(p.0, c), p.1)
    case OnSecond(c) => (p.0, MapChanged(p.1, c))
    case Exchange => (p.1, p.0)
  }

  function TwoMaps<V>(steps: seq<Step<V>>): (map<int, V>, map<int, V>) {
    if steps == [] then (map[], map[]) else MapStepped(TwoMaps(steps[..|steps| - 1]), steps[|steps| - 1])
  }

  /** Both of two maps agree with their finite maps after every history of changes and exchanges. */
  lemma {:induction false} EveryTwoHistory<V>(steps: seq<Step<V>>)
    ensures Agree(TwoHistory(steps).0, TwoMaps(steps).0) && Agree(TwoHistory(steps).1, TwoMaps(steps).1)
  {
    hide Agree, Changed, MapChanged;
    if steps == [] {
      NoEntriesAgree<V>();
    } else {
      var n := |steps| - 1;
      EveryTwoHistory(steps[..n]);
      var p, q := TwoHistory(steps[..n]), TwoMaps(steps[..n]);
      match steps[n]
      case OnFirst(c) => ChangedAgree(p.0, q.0, c);
      case OnSecond(c) => ChangedAgree(p.1, q.1, c);
      case Exchange =>
    }
  }

  lemma NoEntriesAgree<V>()
    ensures Agree<V>([], map[])
  {
    NoEntries<V>();
  }

  /** A change made on the first of two separate maps; the second stays as it is, and they stay separate. */
  method Play<V(0)>(m: HashMap<V>, other: HashMap<V>, c: Change<V>)
    requires m.Valid() && other.Valid() && m.Separate(other)
    modifies m.Footprint()
    ensures m.Valid() && other.Valid() && m.Separate(other)
    ensures m.entries == Changed(old(m.entries), c) && other.entries == old(other.entries)
    ensures fresh(m.Footprint() - old(m.Footprint())) && other.Footprint() == old(other.Footprint())
  {
    hide HashMap.Valid, Changed, HashMap.Footprint;
    ghost var reach := other.Footprint();
    assert allocated(reach);
    m.Apply(c);
    other.Untouched(reach);
  }

  /** One step of two separate maps. */
  method PlayStep<V(0)>(a: HashMap<V>, b: HashMap<V>, step: Step<V>)
    requires a.Valid() && b.Valid() && a.Separate(b) && a.hash == b.hash
    modifies a.Footprint(), b.Footprint()
    ensures a.Valid() && b.Valid() && a.Separate(b)
    ensures (a.entries, b.entries) == Stepped((old(a.entries), old(b.entries)), step)
    ensures fresh(a.Footprint() + b.Footprint() - old(a.Footprint() + b.Footprint()))
  {
    hide HashMap.Valid, Changed, HashMap.Separate, HashMap.Footprint;
    Separately(a, b);
    match step {
      case OnFirst(c) => Play(a, b, c);
      case OnSecond(c) => Play(b, a, c);
      case Exchange =>
        Reachable(a, b);
        a.Swap(b);
    }
    Separately(a, b);
  }

  lemma Separately<V(0)>(a: HashMap<V>, b: HashMap<V>)
    ensures a.Separate(b) <==> b.Separate(a)
    ensures a.Separate(b) ==> a != b
  {
  }

  lemma Reachable<V(0)>(a: HashMap<V>, b: HashMap<V>)
    requires a.Valid() && b.Valid()
    ensures Members(a.items) <= a.Footprint() && a in a.Footprint() && a.endItem in a.Footprint()
    ensures Members(b.items) <= b.Footprint() && b in b.Footprint() && b.endItem in b.Footprint()
  {
    hide HashMap.Valid;
    a.Reach();
    b.Reach();
  }

  /** Two maps with one hash function through a whole history. */
  method PlayAll<V(0)>(hash: int -> nat, capacity1: nat, capacity2: nat, steps: seq<Step<V>>) returns (a: HashMap<V>, b: HashMap<V>)
    ensures fresh(a) && fresh(b) && a.Valid() && b.Valid() && a.Separate(b)
    ensures (a.entries, b.entries) == TwoHistory(steps)
  {
    hide HashMap.Valid, HashMap.Footprint, HashMap.Separate, Stepped;
    a, b := TwoNew(hash, capacity1, capacity2);
    for i := 0 to |steps|
      invariant a.Valid() && b.Valid() && a.Separate(b) && a.hash == b.hash
      invariant fresh(a.Footprint()) && fresh(b.Footprint())
      invariant (a.entries, b.entries) == TwoHistory(steps[..i])
    {
      assert steps[..i + 1][..i] == steps[..i];
      ghost var mine := a.Footprint() + b.Footprint();
      label Next:
      PlayStep(a, b, steps[i]);
      forall x | x in a.Footprint() ensures !old(allocated(x)) {
        assert x in mine || !old@Next(allocated(x));
      }
      forall x | x in b.Footprint() ensures !old(allocated(x)) {
        assert x in mine || !old@Next(allocated(x));
      }
    }
    assert steps[..|steps|] == steps;
  }

  method TwoNew<V(0)>(hash: int -> nat, capacity1: nat, capacity2: nat) returns (a: HashMap<V>, b: HashMap<V>)
    ensures fresh(a) && fresh(b) && a.Valid() && b.Valid() && a.Separate(b) && a.hash == b.hash
    ensures a.entries == b.entries == [] && fresh(a.Footprint()) && fresh(b.Footprint())
  {
    hide HashMap.Valid;
    a := new HashMap<V>(hash, capacity1);
    ghost var reach := a.Footprint();
    label One:
    b := new HashMap<V>(hash, capacity2);
    a.Untouched@One(reach);
  }
}
