/** The order of ATasm's symbol listings: what merging and sorting mean, before any pointer moves. */
module AtasmSort {
  import opened CString

  /** What listings are ordered by. */
  datatype Key = Key(name: string, addr: int)

  /** A symbol table entry. `nxt` chains the entries of a hash bucket, `lnk` the entries of a listing. */
  class Symbol {
    const key: Key
    var nxt: Symbol?
    var lnk: Symbol?

    constructor (key: Key)
      ensures this.key == key && nxt == null && lnk == null
    {
      this.key := key;
      nxt := null;
      lnk := null;
    }
  }

  predicate KeyBefore(byAddress: bool, x: Key, y: Key) {
    if byAddress then x.addr < y.addr else Less(x.name, y.name)
  }

  /** The comparison of `address_merge` and of `alpha_merge`. */
  predicate Before(byAddress: bool, p: Symbol, q: Symbol) {
    KeyBefore(byAddress, p.key, q.key)
  }

  /** Neither comes before the other. */
  predicate Tied(byAddress: bool, p: Symbol, k: Key) {
    !KeyBefore(byAddress, p.key, k) && !KeyBefore(byAddress, k, p.key)
  }

  lemma BeforeTransitive(byAddress: bool, x: Key, y: Key, z: Key)
    requires KeyBefore(byAddress, x, y) && KeyBefore(byAddress, y, z)
    ensures KeyBefore(byAddress, x, z)
  {
    if !byAddress {
      LessTransitive(x.name, y.name, z.name);
    }
  }

  /** What comes before `y` comes before everything not before `y`. */
  lemma BeforeNegative(byAddress: bool, x: Key, y: Key, z: Key)
    requires KeyBefore(byAddress, x, y) && !KeyBefore(byAddress, z, y)
    ensures KeyBefore(byAddress, x, z)
  {
    if !byAddress {
      StrcmpFlips(z.name, y.name);
      StrcmpZero(z.name, y.name);
      if z.name != y.name {
        LessTransitive(x.name, y.name, z.name);
      }
    }
  }

  lemma BeforeIrreflexive(byAddress: bool, x: Key)
    ensures !KeyBefore(byAddress, x, x)
  {
    StrcmpZero(x.name, x.name);
  }

  // ---------------------------------------------------------------- the reference: insertion

  /** Put `x` in front of the first entry that does not come before it. */
  function Insert(byAddress: bool, x: Symbol, t: seq<Symbol>): seq<Symbol>
    decreases |t|
  {
    if t == [] || !Before(byAddress, t[0], x) then [x] + t else [t[0]] + Insert(byAddress, x, t[1..])
  }

  /** Insertion sort, the last entry first. */
  function Sorted(byAddress: bool, s: seq<Symbol>): seq<Symbol>
    decreases |s|
  {
    if s == [] then [] else Insert(byAddress, s[0], Sorted(byAddress, s[1..]))
  }

  /** The list the merges build: an entry of `p` only if it comes strictly before that of `q`. */
  function Merged(byAddress: bool, p: seq<Symbol>, q: seq<Symbol>): seq<Symbol>
    decreases |p| + |q|
  {
    if p == [] then q
    else if q == [] then p
    else if Before(byAddress, p[0], q[0]) then [p[0]] + Merged(byAddress, p[1..], q)
    else [q[0]] + Merged(byAddress, p, q[1..])
  }

  // ---------------------------------------------------------------- what a sorted listing is

  ghost predicate Ascending(byAddress: bool, s: seq<Symbol>) {
    forall i, j :: 0 <= i < j < |s| ==> !Before(byAddress, s[j], s[i])
  }

  /** The entries of `s` tied with `k`, in the order they have there. */
  function Ties(byAddress: bool, s: seq<Symbol>, k: Key): seq<Symbol>
    decreases |s|
  {
    if s == [] then [] else (if Tied(byAddress, s[0], k) then [s[0]] else []) + Ties(byAddress, s[1..], k)
  }

  /** `r` is `s` in order, entries that tie keeping the order they have in `s`. */
  ghost predicate IsStableSort(byAddress: bool, r: seq<Symbol>, s: seq<Symbol>) {
    && Ascending(byAddress, r)
    && multiset(r) == multiset(s)
    && forall k :: Ties(byAddress, r, k) == Ties(byAddress, s, k)
  }

  lemma {:induction false} InsertContents(byAddress: bool, x: Symbol, t: seq<Symbol>)
    ensures multiset(Insert(byAddress, x, t)) == multiset{x} + multiset(t)
    decreases |t|
  {
    if t != [] {
      assert t == [t[0]] + t[1..];
      if Before(byAddress, t[0], x) {
        InsertContents(byAddress, x, t[1..]);
      }
    }
  }

  lemma InsertMembers(byAddress: bool, x: Symbol, t: seq<Symbol>, y: Symbol)
    ensures y in Insert(byAddress, x, t) <==> y == x || y in t
  {
  }

  lemma AscendingCons(byAddress: bool, x: Symbol, t: seq<Symbol>)
    requires Ascending(byAddress, t) && forall y :: y in t ==> !Before(byAddress, y, x)
    ensures Ascending(byAddress, [x] + t)
  {
  }

  lemma {:induction false} InsertAscends(byAddress: bool, x: Symbol, t: seq<Symbol>)
    requires Ascending(byAddress, t)
    ensures Ascending(byAddress, Insert(byAddress, x, t))
    decreases |t|
  {
    if t == [] || !Before(byAddress, t[0], x) {
      forall y | y in t ensures !Before(byAddress, y, x) {
        if Before(byAddress, y, x) {
          BeforeNegative(byAddress, y.key, x.key, t[0].key);
        }
      }
      AscendingCons(byAddress, x, t);
    } else {
      InsertAscends(byAddress, x, t[1..]);
      forall y | y in Insert(byAddress, x, t[1..]) ensures !Before(byAddress, y, t[0]) {
        InsertMembers(byAddress, x, t[1..], y);
        if y == x && Before(byAddress, x, t[0]) {
          BeforeTransitive(byAddress, x.key, t[0].key, x.key);
          BeforeIrreflexive(byAddress, x.key);
        }
      }
      AscendingCons(byAddress, t[0], Insert(byAddress, x, t[1..]));
    }
  }

  lemma TiesCons(byAddress: bool, x: Symbol, t: seq<Symbol>, k: Key)
    ensures Ties(byAddress, [x] + t, k) == (if Tied(byAddress, x, k) then [x] else []) + Ties(byAddress, t, k)
  {
  }

  lemma {:induction false} InsertTies(byAddress: bool, x: Symbol, t: seq<Symbol>, k: Key)
    ensures Ties(byAddress, Insert(byAddress, x, t), k) == Ties(byAddress, [x] + t, k)
    decreases |t|
  {
    if t != [] && Before(byAddress, t[0], x) {
      var rest := t[1..];
      assert t == [t[0]] + rest;
      InsertTies(byAddress, x, rest, k);
      TiesCons(byAddress, x, rest, k);
      TiesCons(byAddress, t[0], Insert(byAddress, x, rest), k);
      TiesCons(byAddress, x, t, k);
      TiesCons(byAddress, t[0], rest, k);
      if Tied(byAddress, x, k) && Tied(byAddress, t[0], k) {
        BeforeNegative(byAddress, t[0].key, x.key, k);
      }
    }
  }

  /** The reference is a stable sort. */
  lemma {:induction false} SortedIsStableSort(byAddress: bool, s: seq<Symbol>)
    ensures IsStableSort(byAddress, Sorted(byAddress, s), s)
    decreases |s|
  {
    if s != [] {
      var t := Sorted(byAddress, s[1..]);
      SortedIsStableSort(byAddress, s[1..]);
      assert s == [s[0]] + s[1..];
      InsertAscends(byAddress, s[0], t);
      InsertContents(byAddress, s[0], t);
      forall k ensures Ties(byAddress, Sorted(byAddress, s), k) == Ties(byAddress, s, k) {
        InsertTies(byAddress, s[0], t, k);
        TiesCons(byAddress, s[0], t, k);
        TiesCons(byAddress, s[0], s[1..], k);
      }
    }
  }

  /** Two entries have the same name or, in a listing by address, the same address. */
  predicate SameKey(byAddress: bool, x: Key, y: Key) {
    if byAddress then x.addr == y.addr else x.name == y.name
  }

  /** The entries of `s` with the key of `k`, in the order they have there. */
  function WithKey(byAddress: bool, s: seq<Symbol>, k: Key): seq<Symbol>
    decreases |s|
  {
    if s == [] then []
    else (if SameKey(byAddress, s[0].key, k) then [s[0]] else []) + WithKey(byAddress, s[1..], k)
  }

  /** `r` lists the entries of `s`: by ascending address, or by name in the order of dictionaries; entries with
      the same key in the order they have in `s`. */
  ghost predicate IsListing(byAddress: bool, r: seq<Symbol>, s: seq<Symbol>) {
    && multiset(r) == multiset(s)
    && (forall i, j :: 0 <= i < j < |r| ==>
          if byAddress then r[i].key.addr <= r[j].key.addr
          else r[i].key.name == r[j].key.name || DictionaryBefore(r[i].key.name, r[j].key.name))
    && forall k :: WithKey(byAddress, r, k) == WithKey(byAddress, s, k)
  }

  lemma TiedIsSameKey(byAddress: bool, p: Symbol, k: Key)
    ensures Tied(byAddress, p, k) <==> SameKey(byAddress, p.key, k)
  {
    StrcmpFlips(p.key.name, k.name);
    StrcmpZero(p.key.name, k.name);
  }

  lemma {:induction false} TiesHaveKey(byAddress: bool, s: seq<Symbol>, k: Key)
    ensures Ties(byAddress, s, k) == WithKey(byAddress, s, k)
    decreases |s|
  {
    if s != [] {
      TiedIsSameKey(byAddress, s[0], k);
      TiesHaveKey(byAddress, s[1..], k);
    }
  }

  lemma SortedIsListing(byAddress: bool, s: seq<Symbol>)
    ensures IsListing(byAddress, Sorted(byAddress, s), s)
  {
    var r := Sorted(byAddress, s);
    SortedIsStableSort(byAddress, s);
    forall i, j | 0 <= i < j < |r| && !byAddress
      ensures r[i].key.name == r[j].key.name || DictionaryBefore(r[i].key.name, r[j].key.name)
    {
      StrcmpFlips(r[i].key.name, r[j].key.name);
      StrcmpZero(r[i].key.name, r[j].key.name);
      LessIsDictionary(r[i].key.name, r[j].key.name);
      assert !Before(byAddress, r[j], r[i]);
    }
    forall k ensures WithKey(byAddress, r, k) == WithKey(byAddress, s, k) {
      TiesHaveKey(byAddress, r, k);
      TiesHaveKey(byAddress, s, k);
      assert Ties(byAddress, r, k) == Ties(byAddress, s, k);
    }
  }

  lemma SortedLength(byAddress: bool, s: seq<Symbol>)
    ensures |Sorted(byAddress, s)| == |s|
  {
    SortedIsStableSort(byAddress, s);
    assert |multiset(Sorted(byAddress, s))| == |multiset(s)|;
  }

  // ---------------------------------------------------------------- a stable sort is unique

  lemma {:induction false} TiesAreTied(byAddress: bool, s: seq<Symbol>, k: Key, y: Symbol)
    requires y in Ties(byAddress, s, k)
    ensures y in s && Tied(byAddress, y, k)
    decreases |s|
  {
    if s[0] != y || !Tied(byAddress, s[0], k) {
      TiesAreTied(byAddress, s[1..], k, y);
    }
  }

  /** Equal ties make equal first entries: the least of the others cannot come later. */
  lemma SameFirst(byAddress: bool, a: seq<Symbol>, b: seq<Symbol>)
    requires Ascending(byAddress, a) && Ascending(byAddress, b)
    requires a != [] && b != []
    requires forall k :: Ties(byAddress, a, k) == Ties(byAddress, b, k)
    ensures a[0] == b[0]
  {
    var x, y := a[0], b[0];
    BeforeIrreflexive(byAddress, x.key);
    BeforeIrreflexive(byAddress, y.key);
    assert Ties(byAddress, a, x.key)[0] == x && Ties(byAddress, b, y.key)[0] == y;
    assert Ties(byAddress, a, x.key) == Ties(byAddress, b, x.key) && Ties(byAddress, a, y.key) == Ties(byAddress, b, y.key);
    TiesAreTied(byAddress, b, x.key, x);
    TiesAreTied(byAddress, a, y.key, y);
    assert !Before(byAddress, x, y) && !Before(byAddress, y, x);
  }

  lemma SomeTie(byAddress: bool, a: seq<Symbol>, b: seq<Symbol>)
    requires forall k :: Ties(byAddress, a, k) == Ties(byAddress, b, k)
    ensures a != [] ==> b != []
  {
    if a != [] {
      BeforeIrreflexive(byAddress, a[0].key);
      assert Ties(byAddress, a, a[0].key) == Ties(byAddress, b, a[0].key);
    }
  }

  /** There is only one stable sort of a listing. */
  lemma {:induction false} StableSortIsUnique(byAddress: bool, a: seq<Symbol>, b: seq<Symbol>)
    requires Ascending(byAddress, a) && Ascending(byAddress, b)
    requires forall k :: Ties(byAddress, a, k) == Ties(byAddress, b, k)
    ensures a == b
    decreases |a|
  {
    SomeTie(byAddress, a, b);
    SomeTie(byAddress, b, a);
    if a != [] {
      SameFirst(byAddress, a, b);
      forall k ensures Ties(byAddress, a[1..], k) == Ties(byAddress, b[1..], k) {
        assert Ties(byAddress, a, k) == Ties(byAddress, b, k);
        var first := if Tied(byAddress, a[0], k) then 1 else 0;
        assert Ties(byAddress, a, k)[first..] == Ties(byAddress, a[1..], k);
        assert Ties(byAddress, b, k)[first..] == Ties(byAddress, b[1..], k);
      }
      StableSortIsUnique(byAddress, a[1..], b[1..]);
    }
  }

  // ---------------------------------------------------------------- merging is sorting the concatenation

  /** Inserting the oldest entry before or after a merge is the same. */
  lemma {:induction false} MergeInsert(byAddress: bool, x: Symbol, p: seq<Symbol>, q: seq<Symbol>)
    ensures Merged(byAddress, p, Insert(byAddress, x, q)) == Insert(byAddress, x, Merged(byAddress, p, q))
    decreases |p| + |q|
  {
    if p != [] && (q == [] || !Before(byAddress, q[0], x)) {
      assert Insert(byAddress, x, q) == [x] + q && ([x] + q)[1..] == q;
      if Before(byAddress, p[0], x) {
        if q != [] {
          BeforeNegative(byAddress, p[0].key, x.key, q[0].key);
        }
        MergeInsert(byAddress, x, p[1..], q);
        assert Merged(byAddress, p, q) == [p[0]] + Merged(byAddress, p[1..], q);
      }
    } else if p != [] {
      var rest := Insert(byAddress, x, q[1..]);
      assert Insert(byAddress, x, q) == [q[0]] + rest && ([q[0]] + rest)[1..] == rest;
      if Before(byAddress, p[0], q[0]) {
        BeforeTransitive(byAddress, p[0].key, q[0].key, x.key);
        MergeInsert(byAddress, x, p[1..], q);
        assert Merged(byAddress, p, q) == [p[0]] + Merged(byAddress, p[1..], q);
      } else {
        MergeInsert(byAddress, x, p, q[1..]);
        assert Merged(byAddress, p, q) == [q[0]] + Merged(byAddress, p, q[1..]);
      }
    }
  }

  /** Merging the sorted newer entries into the sorted older ones sorts them all. */
  lemma {:induction false} MergeIsSort(byAddress: bool, older: seq<Symbol>, newer: seq<Symbol>)
    ensures Merged(byAddress, Sorted(byAddress, newer), Sorted(byAddress, older)) == Sorted(byAddress, older + newer)
    decreases |older|
  {
    if older == [] {
      assert older + newer == newer;
    } else {
      MergeIsSort(byAddress, older[1..], newer);
      MergeInsert(byAddress, older[0], Sorted(byAddress, newer), Sorted(byAddress, older[1..]));
      assert (older + newer)[1..] == older[1..] + newer;
    }
  }
}
