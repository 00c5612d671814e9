/** ATasm's symbol listings (symbol.c): the hash buckets strung together, then merge-sorted in place. */
module AtasmSymbolList {
  import opened CInt
  import opened AtasmSort

  // ---------------------------------------------------------------- linked lists

  ghost predicate Distinct(s: seq<Symbol>) {
    forall i, j :: 0 <= i < j < |s| ==> s[i] != s[j]
  }

  ghost predicate Apart(s: seq<Symbol>, t: seq<Symbol>) {
    forall x :: x in s ==> x !in t
  }

  ghost function Nodes(s: seq<Symbol>): set<Symbol> {
    set x | x in s
  }

  function First(s: seq<Symbol>): Symbol? {
    if s == [] then null else s[0]
  }

  /** The entries of `s` are linked one to the next, the last one to `next`. */
  ghost predicate Linked(s: seq<Symbol>, next: Symbol?)
    reads s
  {
    forall i {:trigger s[i].lnk} :: 0 <= i < |s| ==> s[i].lnk == if i + 1 < |s| then s[i + 1] else next
  }

  /** The list starting at `p` holds exactly `s`. */
  ghost predicate IsList(p: Symbol?, s: seq<Symbol>)
    reads s
  {
    p == First(s) && Distinct(s) && Linked(s, null)
  }

  lemma ListTail(p: Symbol, s: seq<Symbol>)
    requires IsList(p, s)
    ensures s != [] && p == s[0] && IsList(p.lnk, s[1..])
    ensures p !in s[1..]
  {
  }

  // ---------------------------------------------------------------- stringing the buckets together

  const HSIZE: int := 511

  /** The chain of a hash bucket, starting at `p`, holds exactly `b`. */
  ghost predicate IsBucket(p: Symbol?, b: seq<Symbol>)
    reads Nodes(b)`nxt
  {
    p == First(b) && forall j {:trigger b[j].nxt} :: 0 <= j < |b| ==> b[j].nxt == if j + 1 < |b| then b[j + 1] else null
  }

  /** The entries of all the buckets, bucket by bucket. */
  function Entries(buckets: seq<seq<Symbol>>): (s: seq<Symbol>)
    decreases |buckets|
  {
    if buckets == [] then [] else Entries(buckets[..|buckets| - 1]) + buckets[|buckets| - 1]
  }

  /** The number of entries in the first `i` buckets. */
  function Start(buckets: seq<seq<Symbol>>, i: nat): nat
    requires i <= |buckets|
  {
    |Entries(buckets[..i])|
  }

  lemma StartNext(buckets: seq<seq<Symbol>>, i: nat)
    requires i < |buckets|
    ensures Start(buckets, i + 1) == Start(buckets, i) + |buckets[i]|
  {
    assert buckets[..i + 1][..i] == buckets[..i];
  }

  lemma {:induction false} EntryAt(buckets: seq<seq<Symbol>>, i: nat, j: nat)
    requires i < |buckets| && j < |buckets[i]|
    ensures Start(buckets, i) + j < |Entries(buckets)|
    ensures Entries(buckets)[Start(buckets, i) + j] == buckets[i][j]
    decreases |buckets|
  {
    var init := buckets[..|buckets| - 1];
    if i < |init| {
      EntryAt(init, i, j);
      assert init[..i] == buckets[..i];
    }
  }

  /** Find the next bucket in use, or the end of the table. */
  method SkipEmpty(hash: array<Symbol?>, from: int, ghost buckets: seq<seq<Symbol>>) returns (i: int)
    requires 0 <= from <= hash.Length == |buckets|
    requires forall k :: 0 <= k < |buckets| ==> hash[k] == First(buckets[k])
    ensures from <= i <= hash.Length && Start(buckets, i) == Start(buckets, from)
    ensures i < hash.Length ==> buckets[i] != []
  {
    i := from;
    while i < hash.Length && hash[i] == null
      invariant from <= i <= hash.Length && Start(buckets, i) == Start(buckets, from)
    {
      StartNext(buckets, i);
      i := i + 1;
    }
  }

  /** The first `n` of the entries `s` are linked, each to the next. */
  ghost predicate LinkedUpTo(s: seq<Symbol>, n: int)
    reads s
  {
    n < |s| && forall t {:trigger s[t].lnk} :: 0 <= t < n ==> s[t].lnk == s[t + 1]
  }

  /** Link entry number `n` to the entry after it, or to nothing if it is the last. */
  method LinkNext(walk: Symbol, next: Symbol?, ghost s: seq<Symbol>, ghost n: nat)
    requires Distinct(s) && LinkedUpTo(s, n) && walk == s[n]
    requires next == if n + 1 < |s| then s[n + 1] else null
    modifies walk`lnk
    ensures n + 1 < |s| ==> LinkedUpTo(s, n + 1)
    ensures n + 1 == |s| ==> IsList(s[0], s)
  {
    walk.lnk := next;
  }

  /** The inner loop of `linkit`: link the entries of one bucket, those of `s` from number `at` on. */
  method LinkBucket(first: Symbol, ghost b: seq<Symbol>, ghost s: seq<Symbol>, ghost at: nat) returns (walk: Symbol)
    requires b != [] && at + |b| <= |s| && b == s[at..at + |b|]
    requires IsBucket(first, b) && Distinct(s) && LinkedUpTo(s, at)
    modifies Nodes(s)`lnk
    ensures LinkedUpTo(s, at + |b| - 1) && walk == s[at + |b| - 1]
  {
    walk := first;
    ghost var j := 0;
    while walk.nxt != null
      invariant 0 <= j < |b| && walk == b[j] == s[at + j]
      invariant LinkedUpTo(s, at + j)
      decreases |b| - j
    {
      LinkNext(walk, walk.nxt, s, at + j);
      walk := walk.nxt;
      j := j + 1;
    }
  }

  lemma {:induction false} BucketInEntries(buckets: seq<seq<Symbol>>, i: nat)
    requires i < |buckets|
    ensures Start(buckets, i + 1) == Start(buckets, i) + |buckets[i]| <= |Entries(buckets)|
    ensures buckets[i] == Entries(buckets)[Start(buckets, i)..Start(buckets, i + 1)]
    decreases |buckets|
  {
    var init := buckets[..|buckets| - 1];
    StartNext(buckets, i);
    if i == |init| {
      assert buckets[..i + 1] == buckets;
    } else {
      BucketInEntries(init, i);
      assert init[..i] == buckets[..i] && init[..i + 1] == buckets[..i + 1];
    }
  }

  lemma AllLinked(s: seq<Symbol>, n: nat)
    requires Distinct(s) && LinkedUpTo(s, n) && n + 1 == |s| && s[n].lnk == null
    ensures IsList(s[0], s)
  {
  }

  /** The rest of the outer loop's body: on to the next bucket in use. */
  method NextBucket(last: Symbol, hash: array<Symbol?>, i: int, ghost buckets: seq<seq<Symbol>>) returns (next: int, walk: Symbol)
    requires 0 <= i < hash.Length == |buckets| && buckets[i] != [] && Distinct(Entries(buckets))
    requires forall k :: 0 <= k < |buckets| ==> hash[k] == First(buckets[k])
    requires LinkedUpTo(Entries(buckets), Start(buckets, i + 1) - 1)
    requires last == Entries(buckets)[Start(buckets, i + 1) - 1]
    modifies last`lnk
    ensures i < next <= hash.Length
    ensures next < hash.Length ==>
      buckets[next] != [] && walk == buckets[next][0] && LinkedUpTo(Entries(buckets), Start(buckets, next))
    ensures next == hash.Length ==> IsList(First(Entries(buckets)), Entries(buckets))
  {
    ghost var all, n := Entries(buckets), Start(buckets, i + 1) - 1;
    assert buckets[..|buckets|] == buckets;
    walk := last;
    last.lnk := null;
    assert LinkedUpTo(all, n);
    next := SkipEmpty(hash, i + 1, buckets);
    if next < hash.Length {
      EntryAt(buckets, next, 0);
      LinkNext(last, hash[next], all, n);
      walk := hash[next];
    } else {
      AllLinked(all, n);
    }
  }

  /** `linkit`: all the symbols of the table as one list, bucket by bucket. */
  method Linkit(hash: array<Symbol?>, ghost buckets: seq<seq<Symbol>>) returns (clist: Symbol?)
    requires hash.Length == |buckets| == HSIZE && Distinct(Entries(buckets))
    requires forall k :: 0 <= k < |buckets| ==> IsBucket(hash[k], buckets[k])
    modifies Nodes(Entries(buckets))`lnk
    ensures IsList(clist, Entries(buckets))
  {
    ghost var all := Entries(buckets);
    assert buckets[..|buckets|] == buckets && buckets[..0] == [];
    var i := SkipEmpty(hash, 0, buckets);
    if i == HSIZE {
      return null;
    }
    EntryAt(buckets, i, 0);
    var walk: Symbol := hash[i];
    clist := walk;
    while i < HSIZE
      invariant 0 <= i <= HSIZE && clist == First(all)
      invariant forall k :: 0 <= k < |buckets| ==> IsBucket(hash[k], buckets[k])
      invariant i < HSIZE ==> buckets[i] != [] && walk == buckets[i][0] && LinkedUpTo(all, Start(buckets, i))
      invariant i == HSIZE ==> IsList(clist, all)
      decreases HSIZE - i
    {
      BucketInEntries(buckets, i);
      walk := LinkBucket(walk, buckets[i], all, Start(buckets, i));
      i, walk := NextBucket(walk, hash, i, buckets);
    }
  }

  // ---------------------------------------------------------------- merging

  /** The state of a merge: `done` and then `r` are linked up from `l`; `pr` and `qr` are still to come. */
  ghost predicate Merging(l: Symbol, done: seq<Symbol>, r: Symbol, pr: seq<Symbol>, qr: seq<Symbol>)
    reads done, pr, qr
  {
    && l == First(done + [r])
    && Linked(done, r) && Linked(pr, null) && Linked(qr, null)
    && Distinct(done) && Distinct(pr) && Distinct(qr)
    && r !in done && r !in pr && r !in qr
    && Apart(done, pr) && Apart(done, qr) && Apart(pr, qr)
  }

  /** Link the first entry of one list behind the last one taken; it is then the last itself. */
  method Take(ghost l: Symbol, ghost done: seq<Symbol>, r: Symbol, p: Symbol, ghost pr: seq<Symbol>, ghost qr: seq<Symbol>)
    requires Merging(l, done, r, pr, qr) && pr != [] && p == pr[0]
    modifies r`lnk
    ensures Merging(l, done + [r], p, pr[1..], qr) && Merging(l, done + [r], p, qr, pr[1..])
    ensures p.lnk == First(pr[1..])
  {
    r.lnk := p;
    ListTail(p, pr);
    ghost var d := done + [r];
    assert forall i :: 0 <= i < |done| ==> d[i] == done[i];
    assert Linked(d, p);
  }

  lemma JoinedLinks(done: seq<Symbol>, r: Symbol, s: seq<Symbol>)
    requires Linked(done, r) && r.lnk == First(s) && Linked(s, null)
    ensures Linked(done + [r] + s, null)
  {
  }

  lemma Joined(done: seq<Symbol>, r: Symbol, s: seq<Symbol>)
    requires Distinct(done) && Distinct(s) && r !in done && r !in s && Apart(done, s)
    requires Linked(done, r) && r.lnk == First(s) && Linked(s, null)
    ensures IsList(First(done + [r]), done + [r] + s)
  {
    var n, e := |done|, done + [r] + s;
    forall i, j | 0 <= i < j < |e| ensures e[i] != e[j] {
      assert i < n ==> e[i] == done[i] && done[i] in done;
      assert j > n ==> e[j] == s[j - n - 1] && s[j - n - 1] in s;
    }
    JoinedLinks(done, r, s);
  }

  /** One list is used up: the other, linked behind `r`, completes the result. */
  method LinkRest(ghost l: Symbol, ghost done: seq<Symbol>, r: Symbol, rest: Symbol?, ghost s: seq<Symbol>, ghost other: seq<Symbol>)
    requires Merging(l, done, r, s, other) && rest == First(s)
    modifies r`lnk
    ensures IsList(l, done + [r] + s)
  {
    r.lnk := rest;
    assert Linked(done, r) && Linked(s, null);
    Joined(done, r, s);
  }

  lemma MergedNext(byAddress: bool, p: seq<Symbol>, q: seq<Symbol>, done: seq<Symbol>, r: Symbol)
    requires p != [] && q != []
    ensures Before(byAddress, p[0], q[0]) ==>
      done + [r] + Merged(byAddress, p, q) == done + [r] + [p[0]] + Merged(byAddress, p[1..], q)
    ensures !Before(byAddress, p[0], q[0]) ==>
      done + [r] + Merged(byAddress, p, q) == done + [r] + [q[0]] + Merged(byAddress, p, q[1..])
  {
  }

  /** `alpha_merge` and `address_merge`, by the comparison. */
  method Merge(byAddress: bool, first: Symbol, second: Symbol, ghost ps: seq<Symbol>, ghost qs: seq<Symbol>)
    returns (l: Symbol)
    requires IsList(first, ps) && IsList(second, qs) && Apart(ps, qs)
    modifies Nodes(ps)`lnk, Nodes(qs)`lnk
    ensures IsList(l, Merged(byAddress, ps, qs))
  {
    var p: Symbol?, q: Symbol? := first, second;
    var r: Symbol;
    ghost var done, pr, qr := [], ps, qs;
    ListTail(first, ps);
    ListTail(second, qs);
    if Before(byAddress, first, second) {
      r := first;
      p := first.lnk;
      pr := pr[1..];
    } else {
      r := second;
      q := second.lnk;
      qr := qr[1..];
    }
    l := r;
    while p != null && q != null
      invariant Merging(l, done, r, pr, qr) && Merging(l, done, r, qr, pr) && p == First(pr) && q == First(qr)
      invariant done + [r] + Merged(byAddress, pr, qr) == Merged(byAddress, ps, qs)
      invariant r in ps || r in qs
      invariant forall x :: x in pr ==> x in ps
      invariant forall x :: x in qr ==> x in qs
      decreases |pr| + |qr|
    {
      MergedNext(byAddress, pr, qr, done, r);
      if Before(byAddress, p, q) {
        Take(l, done, r, p, pr, qr);
        done, r, pr := done + [r], p, pr[1..];
        p := p.lnk;
      } else {
        Take(l, done, r, q, qr, pr);
        done, r, qr := done + [r], q, qr[1..];
        q := q.lnk;
      }
    }
    if p == null {
      LinkRest(l, done, r, q, qr, pr);
    } else {
      LinkRest(l, done, r, p, pr, qr);
    }
  }

  // ---------------------------------------------------------------- the binary counter

  /** `c` halved `k` times. */
  function Halved(c: nat, k: nat): (h: nat)
    decreases k
  {
    if k == 0 then c else Halved(c / 2, k - 1)
  }

  /** `c` with its low `k` bits cleared. */
  function Floor(c: nat, k: nat): (f: nat)
    ensures f <= c
    decreases k
  {
    if k == 0 then c else 2 * Floor(c / 2, k - 1)
  }

  /** The number of low zero bits of `c`. */
  function Carries(c: nat): nat
    requires c > 0
  {
    if c % 2 == 1 then 0 else 1 + Carries(c / 2)
  }

  lemma {:induction false} FloorStep(c: nat, k: nat)
    ensures Floor(c, k) - Floor(c, k + 1) == if Halved(c, k) % 2 == 1 then Pow2(k) else 0
    ensures Halved(c, k + 1) == Halved(c, k) / 2
    decreases k
  {
    if k > 0 {
      FloorStep(c / 2, k - 1);
    }
  }

  lemma {:induction false} FloorOrder(c: nat, j: nat, k: nat)
    requires j <= k
    ensures Floor(c, k) <= Floor(c, j)
    decreases j
  {
    if j > 0 {
      FloorOrder(c / 2, j - 1, k - 1);
    }
  }

  lemma {:induction false} HalvedBound(c: nat, k: nat, b: nat)
    requires c < Pow2(b)
    ensures Halved(c, k) > 0 ==> k < b
    ensures Halved(c, k) == 0 ==> Floor(c, k) == 0
    decreases k
  {
    if k > 0 {
      if b > 0 {
        HalvedBound(c / 2, k - 1, b - 1);
      } else {
        HalvedBound(c / 2, k - 1, 0);
      }
    }
  }

  lemma {:induction false} CarriesBound(c: nat, b: nat)
    requires 0 < c < Pow2(b)
    ensures Carries(c) < b
    decreases b
  {
    if b > 0 && c % 2 == 0 {
      CarriesBound(c / 2, b - 1);
    }
  }

  /** Counting one more: the low ones of `c` become zeros, the zero above them a one. */
  lemma {:induction false} CountOne(c: nat, k: nat)
    ensures k <= Carries(c + 1) ==> Floor(c, k) == c + 1 - Pow2(k) && Floor(c + 1, k) == c + 1
    ensures k >= Carries(c + 1) ==> Floor(c, k + 1) == Floor(c + 1, k + 1)
    ensures k == Carries(c + 1) ==> Floor(c, k + 1) == Floor(c, k)
    decreases k
  {
    if k > 0 {
      if c % 2 == 1 {
        CountOne(c / 2, k - 1);
        assert (c + 1) / 2 == c / 2 + 1;
      } else {
        assert (c + 1) / 2 == c / 2;
      }
    }
  }

  // ---------------------------------------------------------------- sorting

  lemma FloorAfter(c: nat, k: nat)
    ensures Floor(c, k + 1) <= Floor(c, k)
  {
    FloorOrder(c, k, k + 1);
  }

  /** What `stack[k]` holds after `c` entries: the older the higher `k`, and nothing if bit `k` of `c` is clear. */
  function Slot(byAddress: bool, s: seq<Symbol>, c: nat, k: nat): seq<Symbol>
    requires c <= |s|
  {
    FloorAfter(c, k);
    Sorted(byAddress, s[Floor(c, k + 1)..Floor(c, k)])
  }

  /** All the lists the stack should hold after `c` entries. */
  ghost function Slots(byAddress: bool, s: seq<Symbol>, c: nat): seq<seq<Symbol>>
    requires c <= |s|
  {
    seq(128, k requires 0 <= k => Slot(byAddress, s, c, k))
  }

  /** From level `from` on the stack holds `lists`; where a list is empty the pointer is stale. */
  ghost predicate Holds(stack: array<Symbol?>, lists: seq<seq<Symbol>>, from: nat)
    requires |lists| <= stack.Length
    reads stack, set k: nat, i: nat | from <= k < |lists| && i < |lists[k]| :: lists[k][i]
  {
    forall k | from <= k < |lists| && lists[k] != [] :: IsList(stack[k], lists[k])
  }

  lemma PartsApart(s: seq<Symbol>, a: nat, b: nat, c: nat, d: nat)
    requires Distinct(s) && a <= b <= c <= d <= |s|
    ensures Nodes(s[a..b]) !! Nodes(s[c..d])
  {
  }

  lemma SortedSame(byAddress: bool, t: seq<Symbol>)
    ensures Nodes(Sorted(byAddress, t)) == Nodes(t)
  {
    SortedIsStableSort(byAddress, t);
    assert forall x :: x in Sorted(byAddress, t) <==> x in multiset(t);
  }

  /** The lists above level `k` hold none of the entries from `Floor(c, k)` on. */
  lemma HigherSlotsApart(byAddress: bool, s: seq<Symbol>, c: nat, k: nat, a: nat, b: nat)
    requires c <= |s| && Distinct(s) && Floor(c, k) <= a <= b <= |s|
    ensures forall j: nat :: k <= j ==> Nodes(Slot(byAddress, s, c, j)) !! Nodes(s[a..b])
  {
    forall j: nat | k <= j ensures Nodes(Slot(byAddress, s, c, j)) !! Nodes(s[a..b]) {
      FloorOrder(c, k, j);
      FloorAfter(c, j);
      PartsApart(s, Floor(c, j + 1), Floor(c, j), a, b);
      SortedSame(byAddress, s[Floor(c, j + 1)..Floor(c, j)]);
    }
  }

  /** Merge the list of the newest entries, those from `m` on, with the next older one. */
  method MergeOlder(byAddress: bool, q: Symbol, older: Symbol, ghost s: seq<Symbol>, ghost l: nat, ghost m: nat, ghost h: nat)
    returns (r: Symbol)
    requires Distinct(s) && l <= m <= h <= |s|
    requires IsList(q, Sorted(byAddress, s[m..h])) && IsList(older, Sorted(byAddress, s[l..m]))
    modifies Nodes(s[l..h])`lnk
    ensures IsList(r, Sorted(byAddress, s[l..h]))
  {
    ghost var newest, oldest := s[m..h], s[l..m];
    assert s[l..h] == oldest + newest;
    PartsApart(s, l, m, m, h);
    SortedSame(byAddress, oldest);
    SortedSame(byAddress, newest);
    assert Apart(Sorted(byAddress, newest), Sorted(byAddress, oldest)) by {
      assert forall x :: x in Sorted(byAddress, newest) ==> x in Nodes(newest);
      assert forall x :: x in Sorted(byAddress, oldest) ==> x in Nodes(oldest);
    }
    assert Nodes(s[l..h]) == Nodes(oldest) + Nodes(newest);
    r := Merge(byAddress, q, older, Sorted(byAddress, newest), Sorted(byAddress, oldest));
    MergeIsSort(byAddress, oldest, newest);
  }

  lemma SlotLength(byAddress: bool, s: seq<Symbol>, c: nat, k: nat)
    requires c <= |s|
    ensures |Slot(byAddress, s, c, k)| == if Halved(c, k) % 2 == 1 then Pow2(k) else 0
  {
    FloorStep(c, k);
    FloorAfter(c, k);
    SortedLength(byAddress, s[Floor(c, k + 1)..Floor(c, k)]);
  }

  /** Below the carry every list is full, and counting one more empties it. */
  lemma CarrySlot(byAddress: bool, s: seq<Symbol>, c: nat, k: nat)
    requires c < |s| && k < Carries(c + 1)
    ensures 2 * Pow2(k) == Pow2(k + 1) <= c + 1
    ensures Slot(byAddress, s, c, k) == Sorted(byAddress, s[c + 1 - Pow2(k + 1)..c + 1 - Pow2(k)]) != []
    ensures Slot(byAddress, s, c + 1, k) == []
    ensures Floor(c, k + 1) == c + 1 - Pow2(k + 1)
  {
    CountOne(c, k);
    CountOne(c, k + 1);
    SortedLength(byAddress, s[c + 1 - Pow2(k + 1)..c + 1 - Pow2(k)]);
  }

  lemma SlotOfCarry(byAddress: bool, s: seq<Symbol>, c: nat)
    requires c < |s|
    ensures Pow2(Carries(c + 1)) <= c + 1
    ensures Slot(byAddress, s, c + 1, Carries(c + 1)) == Newest(byAddress, s, c, Carries(c + 1))
  {
    CountOne(c, Carries(c + 1));
  }

  lemma SlotAboveCarry(byAddress: bool, s: seq<Symbol>, c: nat, k: nat)
    requires c < |s| && Carries(c + 1) < k
    ensures Slot(byAddress, s, c + 1, k) == Slot(byAddress, s, c, k)
  {
    CountOne(c, k - 1);
    CountOne(c, k);
  }

  /** None of the lists from level `from` on holds an entry of `t`. */
  ghost predicate Beyond(lists: seq<seq<Symbol>>, from: nat, t: seq<Symbol>) {
    forall k, j :: from <= k < |lists| && 0 <= j < |lists[k]| ==> lists[k][j] !in t
  }

  /** Cut the new entry off from the rest of the listing; it is in none of the lists of the stack. */
  method Detach(q: Symbol, stack: array<Symbol?>, ghost lists: seq<seq<Symbol>>)
    requires |lists| <= stack.Length && Holds(stack, lists, 0) && Beyond(lists, 0, [q])
    modifies q`lnk
    ensures q.lnk == null && Holds(stack, lists, 0)
  {
    assert q in [q];
    q.lnk := null;
  }

  lemma SlotsBeyond(byAddress: bool, s: seq<Symbol>, c: nat, from: nat, a: nat, b: nat)
    requires c <= |s| && Distinct(s) && Floor(c, from) <= a <= b <= |s|
    ensures Beyond(Slots(byAddress, s, c), from, s[a..b])
  {
    var lists := Slots(byAddress, s, c);
    forall k, j | from <= k < |lists| && 0 <= j < |lists[k]| ensures lists[k][j] !in s[a..b] {
      HigherSlotsApart(byAddress, s, c, from, a, b);
      assert lists[k] == Slot(byAddress, s, c, k);
      assert lists[k][j] in Nodes(Slot(byAddress, s, c, k));
    }
  }

  /** What the turn at level `i` finds when entry `c` is added: a full list, and nothing above it touched. */
  ghost predicate ReadyAt(byAddress: bool, s: seq<Symbol>, c: nat, lists: seq<seq<Symbol>>, i: nat) {
    && i < |lists| && 2 * Pow2(i) == Pow2(i + 1)
    && Pow2(i + 1) <= c + 1 <= |s|
    && lists[i] == Sorted(byAddress, s[c + 1 - Pow2(i + 1)..c + 1 - Pow2(i)]) != []
    && Beyond(lists, i + 1, s[c + 1 - Pow2(i + 1)..c + 1])
  }

  ghost predicate CarryReady(byAddress: bool, s: seq<Symbol>, c: nat, lists: seq<seq<Symbol>>)
  {
    forall i: nat :: i < Carries(c + 1) ==> ReadyAt(byAddress, s, c, lists, i)
  }

  lemma SlotsCarryReady(byAddress: bool, s: seq<Symbol>, c: nat)
    requires Distinct(s) && c < |s| && Carries(c + 1) < 128
    ensures CarryReady(byAddress, s, c, Slots(byAddress, s, c))
  {
    forall i: nat | i < Carries(c + 1) ensures ReadyAt(byAddress, s, c, Slots(byAddress, s, c), i) {
      CarryIsApart(byAddress, s, c, i);
    }
  }

  lemma CarryIsApart(byAddress: bool, s: seq<Symbol>, c: nat, i: nat)
    requires Distinct(s) && c < |s| && i < Carries(c + 1) < 128
    ensures ReadyAt(byAddress, s, c, Slots(byAddress, s, c), i)
  {
    CarrySlot(byAddress, s, c, i);
    SlotsBeyond(byAddress, s, c, i + 1, c + 1 - Pow2(i + 1), c + 1);
  }

  /** The newest 2^i of the first `c + 1` entries, sorted. */
  ghost function Newest(byAddress: bool, s: seq<Symbol>, c: nat, i: nat): seq<Symbol>
    requires Pow2(i) <= c + 1 <= |s|
  {
    Sorted(byAddress, s[c + 1 - Pow2(i)..c + 1])
  }

  /** Merge the list at level `i`, that of the entries `s[l..m]`, into the list of the later ones. */
  method MergeLevel(byAddress: bool, q: Symbol, i: nat, stack: array<Symbol?>, ghost lists: seq<seq<Symbol>>,
                    ghost s: seq<Symbol>, ghost l: nat, ghost m: nat, ghost h: nat)
    returns (r: Symbol)
    requires Distinct(s) && l <= m <= h <= |s| && i < |lists| <= stack.Length
    requires IsList(q, Sorted(byAddress, s[m..h])) && lists[i] == Sorted(byAddress, s[l..m]) != []
    requires Holds(stack, lists, i) && Beyond(lists, i + 1, s[l..h])
    modifies Nodes(s[l..h])`lnk
    ensures IsList(r, Sorted(byAddress, s[l..h])) && Holds(stack, lists, i + 1)
  {
    assert Holds(stack, lists, i + 1);
    r := MergeOlder(byAddress, q, stack[i], s, l, m, h);
  }

  lemma PartOfFront(s: seq<Symbol>, l: nat, h: nat)
    requires l <= h <= |s|
    ensures Nodes(s[l..h]) <= Nodes(s[..h])
  {
  }

  /** One turn of the `for` loop of `sort`. */
  method CarryOne(byAddress: bool, q: Symbol, i: nat, stack: array<Symbol?>, ghost lists: seq<seq<Symbol>>,
                  ghost s: seq<Symbol>, ghost c: nat)
    returns (r: Symbol)
    requires Distinct(s) && |lists| <= stack.Length && ReadyAt(byAddress, s, c, lists, i)
    requires IsList(q, Newest(byAddress, s, c, i)) && Holds(stack, lists, i)
    modifies Nodes(s[..c + 1])`lnk
    ensures IsList(r, Newest(byAddress, s, c, i + 1)) && Holds(stack, lists, i + 1)
  {
    PartOfFront(s, c + 1 - Pow2(i + 1), c + 1);
    r := MergeLevel(byAddress, q, i, stack, lists, s, c + 1 - Pow2(i + 1), c + 1 - Pow2(i), c + 1);
  }

  lemma NewNodeIsApart(byAddress: bool, s: seq<Symbol>, c: nat, lists: seq<seq<Symbol>>, q: Symbol)
    requires Distinct(s) && c < |s| && lists == Slots(byAddress, s, c) && q == s[c]
    ensures Beyond(lists, 0, [q])
  {
    SlotsBeyond(byAddress, s, c, 0, c, c + 1);
    assert s[c..c + 1] == [s[c]];
  }

  /** Storing `t` at level `merge` turns the stack of `before` into that of `after`. */
  ghost predicate Counted(before: seq<seq<Symbol>>, after: seq<seq<Symbol>>, merge: nat, t: seq<Symbol>) {
    && merge < |before| == |after| && after[merge] == t
    && forall k :: 0 <= k < |after| ==> after[k] == if k < merge then [] else if k == merge then t else before[k]
  }

  lemma SlotsAfterCount(byAddress: bool, s: seq<Symbol>, c: nat)
    requires c < |s| && Carries(c + 1) < 128
    ensures Pow2(Carries(c + 1)) <= c + 1
    ensures Counted(Slots(byAddress, s, c), Slots(byAddress, s, c + 1), Carries(c + 1), Newest(byAddress, s, c, Carries(c + 1)))
  {
    var m := Carries(c + 1);
    SlotOfCarry(byAddress, s, c);
    var before, after, t := Slots(byAddress, s, c), Slots(byAddress, s, c + 1), Newest(byAddress, s, c, m);
    assert after[m] == t;
    forall k | 0 <= k < 128 ensures after[k] == if k < m then [] else if k == m then t else before[k] {
      if k < m {
        CarrySlot(byAddress, s, c, k);
      } else if k > m {
        SlotAboveCarry(byAddress, s, c, k);
      }
    }
  }

  /** Store the merged list at its level; what the stack held below is now part of it. */
  method Push(q: Symbol, merge: nat, stack: array<Symbol?>, ghost t: seq<Symbol>,
              ghost before: seq<seq<Symbol>>, ghost after: seq<seq<Symbol>>)
    requires Counted(before, after, merge, t) && |before| == stack.Length
    requires IsList(q, t) && Holds(stack, before, merge)
    modifies stack
    ensures Holds(stack, after, 0)
  {
    assert forall k :: merge < k < |before| && before[k] != [] ==> IsList(stack[k], before[k]);
    stack[merge] := q;
    assert forall k :: merge < k < |before| && before[k] != [] ==> IsList(stack[k], before[k]);
  }

  /** The number of times `c` can be halved: `for (merge = 0; !(i & 1); merge++) i /= 2;` */
  method CountCarries(c: int) returns (merge: int)
    requires c > 0
    ensures merge == Carries(c)
  {
    var i := c;
    merge := 0;
    while i % 2 == 0
      invariant i > 0 && merge >= 0 && merge + Carries(i) == Carries(c)
      decreases i
    {
      i := i / 2;
      merge := merge + 1;
    }
  }

  /** The `for` loop of `sort`: the new entry, merged with the full lists below the carry. */
  method CarryUp(byAddress: bool, node: Symbol, merge: nat, stack: array<Symbol?>, ghost lists: seq<seq<Symbol>>,
                 ghost s: seq<Symbol>, ghost c: nat)
    returns (q: Symbol)
    requires Distinct(s) && c < |s| && CarryReady(byAddress, s, c, lists) && |lists| == stack.Length == 128
    requires merge == Carries(c + 1) < 128 && node == s[c] && node.lnk == null
    requires Holds(stack, lists, 0)
    modifies Nodes(s[..c + 1])`lnk
    ensures Pow2(merge) <= c + 1 && IsList(q, Newest(byAddress, s, c, merge))
    ensures Holds(stack, lists, merge)
  {
    q := node;
    assert s[c..c + 1] == [node] && [node][1..] == [];
    assert Sorted(byAddress, [node]) == [node];
    for i := 0 to merge
      invariant Pow2(i) <= c + 1 && IsList(q, Newest(byAddress, s, c, i))
      invariant Holds(stack, lists, i)
    {
      assert ReadyAt(byAddress, s, c, lists, i);
      q := CarryOne(byAddress, q, i, stack, lists, s, c);
    }
  }

  /** Entry number `c`, counting from one, becomes a list of its own and is merged with the full lists below. */
  method MergeNew(byAddress: bool, node: Symbol, c: int, stack: array<Symbol?>, ghost lists: seq<seq<Symbol>>, ghost s: seq<Symbol>)
    returns (q: Symbol, merge: int)
    requires Distinct(s) && 0 < c <= |s| < Pow2(31) && node == s[c - 1]
    requires |lists| == stack.Length == 128
    requires Holds(stack, lists, 0) && Beyond(lists, 0, [node]) && CarryReady(byAddress, s, c - 1, lists)
    modifies Nodes(s[..c])`lnk
    ensures merge == Carries(c) < 31 && Pow2(merge) <= c
    ensures IsList(q, Newest(byAddress, s, c - 1, merge))
    ensures Holds(stack, lists, merge)
  {
    merge := CountCarries(c);
    CarriesBound(c, 31);
    assert node in Nodes(s[..c]);
    Detach(node, stack, lists);
    q := CarryUp(byAddress, node, merge, stack, lists, s, c - 1);
  }

  /** Entry number `c` joins the stack: `MergeNew`, then the store. */
  method AddEntry(byAddress: bool, node: Symbol, c: int, stack: array<Symbol?>, ghost s: seq<Symbol>,
                  ghost before: seq<seq<Symbol>>, ghost after: seq<seq<Symbol>>)
    requires Distinct(s) && 0 < c <= |s| < Pow2(31) && node == s[c - 1]
    requires |before| == stack.Length == 128
    requires Holds(stack, before, 0) && Beyond(before, 0, [node]) && CarryReady(byAddress, s, c - 1, before)
    requires Pow2(Carries(c)) <= c && Counted(before, after, Carries(c), Newest(byAddress, s, c - 1, Carries(c)))
    modifies stack, Nodes(s[..c])`lnk
    ensures Holds(stack, after, 0)
  {
    var q, merge := MergeNew(byAddress, node, c, stack, before, s);
    Push(q, merge, stack, Newest(byAddress, s, c - 1, merge), before, after);
  }

  lemma TailFrom(s: seq<Symbol>, c: nat)
    requires Distinct(s) && c < |s| && Linked(s[c..], null)
    ensures First(s[c..]) == s[c] && s[c].lnk == First(s[c + 1..]) && Linked(s[c + 1..], null)
    ensures s[c] !in s[c + 1..] && Nodes(s[..c + 1]) !! Nodes(s[c + 1..])
  {
  }

  /** All that adding entry `c` to the stack asks for. */
  lemma NextEntry(byAddress: bool, s: seq<Symbol>, c: nat, before: seq<seq<Symbol>>, after: seq<seq<Symbol>>)
    requires Distinct(s) && c < |s| < Pow2(31)
    requires before == Slots(byAddress, s, c) && after == Slots(byAddress, s, c + 1)
    ensures |before| == 128 && Beyond(before, 0, [s[c]]) && CarryReady(byAddress, s, c, before)
    ensures Pow2(Carries(c + 1)) <= c + 1
    ensures Counted(before, after, Carries(c + 1), Newest(byAddress, s, c, Carries(c + 1)))
  {
    CarriesBound(c + 1, 31);
    SlotsCarryReady(byAddress, s, c);
    NewNodeIsApart(byAddress, s, c, before, s[c]);
    SlotsAfterCount(byAddress, s, c);
  }

  /** Every entry but the first `c` is still in the listing that starts at `p`; the others are on the stack. */
  ghost predicate Taken(byAddress: bool, s: seq<Symbol>, c: nat, p: Symbol?, stack: array<Symbol?>, lists: seq<seq<Symbol>>)
    reads s, stack, set k: nat, i: nat | k < |lists| && i < |lists[k]| :: lists[k][i]
  {
    && c <= |s| && p == First(s[c..]) && Linked(s[c..], null)
    && lists == Slots(byAddress, s, c) && |lists| <= stack.Length && Holds(stack, lists, 0)
  }

  /** One turn of the first loop of `sort`: the next entry joins the stack. */
  method TakeEntry(p: Symbol, byAddress: bool, c: int, stack: array<Symbol?>, ghost s: seq<Symbol>, ghost before: seq<seq<Symbol>>)
    returns (rest: Symbol?, ghost after: seq<seq<Symbol>>)
    requires Distinct(s) && 0 <= c < |s| < Pow2(31) && stack.Length == 128
    requires Taken(byAddress, s, c, p, stack, before)
    modifies stack, Nodes(s)`lnk
    ensures Taken(byAddress, s, c + 1, rest, stack, after)
  {
    after := Slots(byAddress, s, c + 1);
    NextEntry(byAddress, s, c, before, after);
    TailFrom(s, c);
    PartOfFront(s, 0, c + 1);
    assert Nodes(s[..c + 1]) <= Nodes(s);
    rest := p.lnk;
    AddEntry(byAddress, p, c + 1, stack, s, before, after);
  }

  /** The first loop of `sort`: every entry of the list into the stack. */
  method FillStack(head: Symbol?, byAddress: bool, stack: array<Symbol?>, ghost s: seq<Symbol>)
    returns (c: int, ghost lists: seq<seq<Symbol>>)
    requires IsList(head, s) && |s| < Pow2(31) && stack.Length == 128
    modifies stack, Nodes(s)`lnk
    ensures c == |s| && lists == Slots(byAddress, s, |s|) && Holds(stack, lists, 0)
  {
    var p := head;
    c, lists := 0, Slots(byAddress, s, 0);
    assert s[0..] == s;
    EmptySlots(byAddress, s);
    while p != null
      invariant 0 <= c <= |s| && Taken(byAddress, s, c, p, stack, lists)
      decreases |s| - c
    {
      p, lists := TakeEntry(p, byAddress, c, stack, s, lists);
      c := c + 1;
    }
  }

  lemma EmptySlots(byAddress: bool, s: seq<Symbol>)
    ensures forall k :: 0 <= k < 128 ==> Slots(byAddress, s, 0)[k] == []
  {
  }

  /** What the last loop of `sort` finds at level `k`: the older entries next to those it has collected. */
  ghost predicate DrainAt(byAddress: bool, s: seq<Symbol>, lists: seq<seq<Symbol>>, k: nat) {
    && k < |lists| && Floor(|s|, k + 1) <= Floor(|s|, k) && Halved(|s|, k + 1) == Halved(|s|, k) / 2
    && lists[k] == Sorted(byAddress, s[Floor(|s|, k + 1)..Floor(|s|, k)])
    && (if Halved(|s|, k) % 2 == 1 then lists[k] != [] else Floor(|s|, k + 1) == Floor(|s|, k))
    && Beyond(lists, k + 1, s[Floor(|s|, k + 1)..])
  }

  lemma SlotsDrain(byAddress: bool, s: seq<Symbol>, k: nat)
    requires Distinct(s) && k < 128
    ensures DrainAt(byAddress, s, Slots(byAddress, s, |s|), k)
  {
    FloorStep(|s|, k);
    FloorAfter(|s|, k);
    SlotLength(byAddress, s, |s|, k);
    SlotsBeyond(byAddress, s, |s|, k + 1, Floor(|s|, k + 1), |s|);
    assert s[Floor(|s|, k + 1)..|s|] == s[Floor(|s|, k + 1)..];
  }

  /** One list of the stack joins what has been collected. */
  method DrainOne(byAddress: bool, newer: Symbol?, k: nat, stack: array<Symbol?>, ghost lists: seq<seq<Symbol>>, ghost s: seq<Symbol>)
    returns (p: Symbol?)
    requires Distinct(s) && |lists| <= stack.Length && DrainAt(byAddress, s, lists, k) && lists[k] != []
    requires IsList(newer, Sorted(byAddress, s[Floor(|s|, k)..])) && Holds(stack, lists, k)
    modifies Nodes(s)`lnk
    ensures IsList(p, Sorted(byAddress, s[Floor(|s|, k + 1)..])) && Holds(stack, lists, k + 1)
  {
    ghost var l, m, h := Floor(|s|, k + 1), Floor(|s|, k), |s|;
    assert Holds(stack, lists, k + 1);
    assert s[m..h] == s[m..] && s[l..h] == s[l..];
    if newer != null {
      p := MergeOlder(byAddress, newer, stack[k], s, l, m, h);
    } else {
      SortedLength(byAddress, s[m..]);
      assert s[l..m] == s[l..];
      p := stack[k];
    }
  }

  /** One turn of the last loop of `sort`: the level counts if bit `k` of the count is set. */
  method DrainTurn(byAddress: bool, newer: Symbol?, d: int, k: nat, stack: array<Symbol?>, ghost lists: seq<seq<Symbol>>,
                   ghost s: seq<Symbol>)
    returns (p: Symbol?)
    requires Distinct(s) && |lists| <= stack.Length && d == Halved(|s|, k) % 2 && DrainAt(byAddress, s, lists, k)
    requires IsList(newer, Sorted(byAddress, s[Floor(|s|, k)..])) && Holds(stack, lists, k)
    modifies Nodes(s)`lnk
    ensures IsList(p, Sorted(byAddress, s[Floor(|s|, k + 1)..])) && Holds(stack, lists, k + 1)
    ensures Halved(|s|, k + 1) == Halved(|s|, k) / 2
  {
    assert Holds(stack, lists, k + 1);
    p := newer;
    if d != 0 {
      p := DrainOne(byAddress, p, k, stack, lists, s);
    }
  }

  /** The last loop of `sort`: the lists of the stack, newest first, merged into one. */
  method Drain(byAddress: bool, count: int, stack: array<Symbol?>, ghost lists: seq<seq<Symbol>>, ghost s: seq<Symbol>)
    returns (p: Symbol?)
    requires Distinct(s) && count == |s| < Pow2(31) && |lists| == stack.Length == 128
    requires Holds(stack, lists, 0) && forall k: nat :: k < 128 ==> DrainAt(byAddress, s, lists, k)
    modifies Nodes(s)`lnk
    ensures IsList(p, Sorted(byAddress, s))
  {
    var c, merge := count, -1;
    p := null;
    while c != 0
      invariant merge >= -1 && c == Halved(|s|, merge + 1)
      invariant IsList(p, Sorted(byAddress, s[Floor(|s|, merge + 1)..]))
      invariant Holds(stack, lists, merge + 1)
      decreases c
    {
      var d := c % 2;
      c := c / 2;
      merge := merge + 1;
      HalvedBound(|s|, merge, 31);
      p := DrainTurn(byAddress, p, d, merge, stack, lists, s);
    }
    HalvedBound(|s|, merge + 1, 31);
    assert s[0..] == s;
  }

  /** `sort`: the listing in order, entries that tie in the order they came. */
  method Sort(head: Symbol?, byAddress: bool, ghost s: seq<Symbol>) returns (p: Symbol?)
    requires IsList(head, s) && |s| < Pow2(31)
    modifies Nodes(s)`lnk
    ensures IsList(p, Sorted(byAddress, s)) && IsListing(byAddress, Sorted(byAddress, s), s)
  {
    SortedIsListing(byAddress, s);
    var stack := new Symbol?[128](_ => null);
    ghost var lists;
    var c;
    c, lists := FillStack(head, byAddress, stack, s);
    forall k: nat | k < 128 ensures DrainAt(byAddress, s, lists, k) {
      SlotsDrain(byAddress, s, k);
    }
    p := Drain(byAddress, c, stack, lists, s);
  }
}
