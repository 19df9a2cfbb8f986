/** Namespace prefix allocation: the pure meaning of `Writer.copyPrefixes`.
    The namespace list is indexed by namespace id; every slot receives a
    distinct prefix, named slots from their preferred prefix, unnamed slots
    from a shared `p1`, `p2`, ... counter, and the root `xmlns:` declarations
    are built before every prefix gets its trailing ':'. */
module Prefixes {
  import opened Wrappers
  import opened Decimal
  import opened Joining

  /** A namespace as the registry describes it: its dense id, its URI and its
      preferred prefix ("" when it has none). */
  datatype Namespace = Namespace(id: nat, uri: string, defaultPrefix: string)

  /** What JavaScript reads from an array slot that was never written. */
  const Undefined: string := "undefined"

  function Max(a: nat, b: nat): nat {
    if a < b then b else a
  }

  /** The preferred prefix of a slot of the namespace list; a hole and an
      empty default prefix are both falsy in the source, so both mean
      "unnamed". */
  function Hint(slot: Option<Namespace>): string {
    match slot
    case None => ""
    case Some(ns) => ns.defaultPrefix
  }

  function Hints(list: seq<Option<Namespace>>): seq<string> {
    seq(|list|, i requires 0 <= i < |list| => Hint(list[i]))
  }

  /** JavaScript's `a[i] = v` on an array of strings: slots it skips over
      become holes, which read back as `undefined`. */
  function Put(s: seq<string>, i: nat, v: string): (r: seq<string>)
    ensures |r| == Max(|s|, i + 1)
    ensures r[i] == v
    ensures forall k :: 0 <= k < |s| && k != i ==> r[k] == s[k]
  {
    if i < |s| then s[i := v] else s + seq(i - |s|, _ => Undefined) + [v]
  }

  /** `prefixList[id]`, which is `undefined` past the end of the list. */
  function PrefixAt(prefixList: seq<string>, id: nat): string {
    if id < |prefixList| then prefixList[id] else Undefined
  }

  /** The claimed strings that read as `base` followed by a number of at
      least `k`: a finite set that shrinks as a probe moves past a claimed
      candidate. */
  ghost function Suffixed(keys: set<string>, base: string, k: nat): set<string> {
    set s | s in keys && |base| <= |s| && s[..|base|] == base && Parse(s[|base|..]) >= k
  }

  lemma SuffixedShrinks(keys: set<string>, base: string, k: nat)
    requires base + Str(k) in keys
    ensures Suffixed(keys, base, k + 1) < Suffixed(keys, base, k)
  {
    var c := base + Str(k);
    assert c[..|base|] == base && c[|base|..] == Str(k);
    ParseStr(k);
    assert c in Suffixed(keys, base, k) - Suffixed(keys, base, k + 1);
  }

  /** The smallest number from `k` upward whose candidate `base + n` is not
      claimed: where a probing loop that starts at `k` stops. It exists
      because the table is finite. */
  function FirstFree(table: map<string, nat>, base: string, k: nat): (n: nat)
    ensures k <= n
    ensures base + Str(n) !in table
    decreases Suffixed(table.Keys, base, k)
  {
    if base + Str(k) !in table then k
    else
      SuffixedShrinks(table.Keys, base, k);
      FirstFree(table, base, k + 1)
  }

  /** Every candidate the probe passes over is claimed. */
  lemma {:induction false} FirstFreeIsFirst(table: map<string, nat>, base: string, k: nat, m: nat)
    requires k <= m < FirstFree(table, base, k)
    ensures base + Str(m) in table
    decreases Suffixed(table.Keys, base, k)
  {
    if m > k {
      SuffixedShrinks(table.Keys, base, k);
      FirstFreeIsFirst(table, base, k + 1, m);
    }
  }

  /** The prefix a named slot claims: its hint when that is free, otherwise
      the hint followed by the smallest number from 2 that gives a free
      string. */
  function NamedClaim(table: map<string, nat>, hint: string): (p: string)
    ensures p !in table
    ensures |hint| <= |p| && p[..|hint|] == hint
    ensures p == hint <==> hint !in table
  {
    if hint !in table then hint else hint + Str(FirstFree(table, hint, 2))
  }

  /** The prefix list (before the trailing ':' is added) and the table of
      claimed prefixes, each mapped to its slot index plus one. */
  datatype Claims = Claims(prefixes: seq<string>, table: map<string, nat>)

  /** Slot `i` claims prefix `p`: the prefix list holds it at `i` and the
      table records it under `i + 1`. */
  function Claim(c: Claims, i: nat, p: string): Claims {
    Claims(Put(c.prefixes, i, p), c.table[p := i + 1])
  }

  /** The state after the first pass has visited slots `0 .. n-1`: each named
      slot claims a prefix and records it. */
  function Named(hints: seq<string>, n: nat, start: Claims): Claims
    requires n <= |hints|
  {
    if n == 0 then start
    else
      var c := Named(hints, n - 1, start);
      if hints[n - 1] == "" then c
      else
        Claim(c, n - 1, NamedClaim(c.table, hints[n - 1]))
  }

  /** The state after the second pass has visited slots `0 .. n-1`, and its
      counter: each unnamed slot takes `p` followed by the first number past
      the counter whose candidate is free, and the counter stays there. */
  function Unnamed(hints: seq<string>, n: nat, start: Claims): (Claims, nat)
    requires n <= |hints|
  {
    if n == 0 then (start, 0)
    else
      var prev := Unnamed(hints, n - 1, start);
      var c := prev.0;
      if hints[n - 1] != "" then prev
      else
        var k := FirstFree(c.table, "p", prev.1 + 1);
        (Claim(c, n - 1, "p" + Str(k)), k)
  }

  /** One step of the first pass. */
  lemma NamedStep(hints: seq<string>, i: nat, start: Claims)
    requires i < |hints|
    ensures var c := Named(hints, i, start);
      Named(hints, i + 1, start) == if hints[i] == "" then c else Claim(c, i, NamedClaim(c.table, hints[i]))
  {
  }

  /** One step of the second pass. */
  lemma UnnamedStep(hints: seq<string>, i: nat, start: Claims)
    requires i < |hints|
    ensures var prev := Unnamed(hints, i, start);
      var k := FirstFree(prev.0.table, "p", prev.1 + 1);
      Unnamed(hints, i + 1, start) == if hints[i] != "" then prev else (Claim(prev.0, i, "p" + Str(k)), k)
  {
  }

  /** The finishing pass: a ':' after each of the first `n` prefixes. */
  function Colons(prefixes: seq<string>, n: nat): seq<string> {
    seq(|prefixes|, k requires 0 <= k < |prefixes| => if k < n then prefixes[k] + ":" else prefixes[k])
  }

  /** What slot `i` adds to the root declarations: present namespaces
      declare their prefix and URI, holes add nothing. */
  function Declaration(list: seq<Option<Namespace>>, prefixes: seq<string>, i: nat): string
    requires i < |prefixes|
  {
    if i < |list| && list[i].Some? then " xmlns:" + prefixes[i] + "=\"" + list[i].value.uri + "\"" else ""
  }

  /** What each slot adds to the root declarations, in slot order. */
  function DeclarationList(list: seq<Option<Namespace>>, prefixes: seq<string>): (r: seq<string>)
    ensures |r| == |prefixes|
  {
    seq(|prefixes|, i requires 0 <= i < |prefixes| => Declaration(list, prefixes, i))
  }

  /** The root declaration string: `map(...).join('')` over the whole
      prefix list. */
  function Declarations(list: seq<Option<Namespace>>, prefixes: seq<string>): string {
    Join(DeclarationList(list, prefixes))
  }

  /** What `copyPrefixes` leaves behind. */
  datatype Allocation = Allocation(prefixList: seq<string>, table: map<string, nat>, declarations: string)

  function AfterNamed(list: seq<Option<Namespace>>, prefixList: seq<string>, table: map<string, nat>): Claims {
    Named(Hints(list), |list|, Claims(prefixList, table))
  }

  function AfterUnnamed(list: seq<Option<Namespace>>, prefixList: seq<string>, table: map<string, nat>): Claims {
    Unnamed(Hints(list), |list|, AfterNamed(list, prefixList, table)).0
  }

  /** `copyPrefixes(list)` applied to the writer's current prefix list and
      table: both passes, then the declarations, then the colons. */
  function Allocate(list: seq<Option<Namespace>>, prefixList: seq<string>, table: map<string, nat>): (r: Allocation)
    ensures |r.prefixList| == Max(|prefixList|, |list|)
  {
    PassesCover(Hints(list), Claims(prefixList, table));
    var all := AfterUnnamed(list, prefixList, table);
    Allocation(Colons(all.prefixes, |list|), all.table, Declarations(list, all.prefixes))
  }

  // ---------------------------------------------------------------------
  // Facts about the two passes, one slot or one table entry at a time
  // ---------------------------------------------------------------------

  lemma {:induction false} NamedLength(hints: seq<string>, n: nat, start: Claims)
    requires n <= |hints|
    ensures |start.prefixes| <= |Named(hints, n, start).prefixes| <= Max(|start.prefixes|, n)
    ensures n > 0 && hints[n - 1] != "" ==> n <= |Named(hints, n, start).prefixes|
  {
    if n > 0 {
      NamedLength(hints, n - 1, start);
      var c := Named(hints, n - 1, start);
      if hints[n - 1] != "" {
        assert Named(hints, n, start).prefixes == Put(c.prefixes, n - 1, NamedClaim(c.table, hints[n - 1]));
      }
    }
  }

  /** The first pass leaves unnamed slots and slots past `n` alone. */
  lemma {:induction false} NamedKeepsSlot(hints: seq<string>, n: nat, start: Claims, k: nat)
    requires n <= |hints| && k < |start.prefixes| && !(k < n && hints[k] != "")
    ensures k < |Named(hints, n, start).prefixes| && Named(hints, n, start).prefixes[k] == start.prefixes[k]
  {
    if n > 0 {
      NamedKeepsSlot(hints, n - 1, start, k);
      var c := Named(hints, n - 1, start);
      if hints[n - 1] != "" {
        assert k != n - 1;
        assert Named(hints, n, start).prefixes == Put(c.prefixes, n - 1, NamedClaim(c.table, hints[n - 1]));
      }
    }
  }

  /** The first pass never changes an existing table entry. */
  lemma {:induction false} NamedKeepsKey(hints: seq<string>, n: nat, start: Claims, s: string)
    requires n <= |hints| && s in start.table
    ensures s in Named(hints, n, start).table && Named(hints, n, start).table[s] == start.table[s]
  {
    if n > 0 {
      NamedKeepsKey(hints, n - 1, start, s);
      var c := Named(hints, n - 1, start);
      if hints[n - 1] != "" {
        var p := NamedClaim(c.table, hints[n - 1]);
        assert Named(hints, n, start).table == c.table[p := n];
      }
    }
  }

  /** A named slot keeps the claim it made when it was visited, recorded
      under its index plus one. */
  lemma {:induction false} NamedSlotClaim(hints: seq<string>, n: nat, start: Claims, j: nat)
    requires j < n <= |hints| && hints[j] != ""
    ensures var c := Named(hints, n, start);
      j < |c.prefixes| && c.prefixes[j] == NamedClaim(Named(hints, j, start).table, hints[j]) &&
      c.prefixes[j] in c.table && c.table[c.prefixes[j]] == j + 1
  {
    if n > j + 1 {
      NamedSlotClaim(hints, n - 1, start, j);
      var c := Named(hints, n - 1, start);
      if hints[n - 1] != "" {
        var p := NamedClaim(c.table, hints[n - 1]);
        assert Named(hints, n, start) == Claims(Put(c.prefixes, n - 1, p), c.table[p := n]);
      }
    }
  }

  /** A named slot's claim was not in the table before the pass. */
  lemma NamedClaimIsNew(hints: seq<string>, j: nat, start: Claims)
    requires j < |hints|
    ensures NamedClaim(Named(hints, j, start).table, hints[j]) !in start.table
  {
    var p := NamedClaim(Named(hints, j, start).table, hints[j]);
    if p in start.table {
      NamedKeepsKey(hints, j, start, p);
    }
  }

  /** `s` is recorded under the index plus one of a named slot below `n`
      that holds it. */
  ghost predicate HeldBy(hints: seq<string>, c: Claims, n: nat, s: string) {
    s in c.table && 1 <= c.table[s] <= n && n <= |hints| && hints[c.table[s] - 1] != "" &&
    c.table[s] - 1 < |c.prefixes| && c.prefixes[c.table[s] - 1] == s
  }

  /** Every entry the first pass adds to the table names the named slot that
      holds it. */
  lemma {:induction false} NamedKeyOwner(hints: seq<string>, n: nat, start: Claims, s: string)
    requires n <= |hints| && s in Named(hints, n, start).table && s !in start.table
    ensures HeldBy(hints, Named(hints, n, start), n, s)
  {
    if n > 0 {
      if s in Named(hints, n - 1, start).table {
        NamedKeyOwner(hints, n - 1, start, s);
      }
      NamedOwnerStep(hints, n, start, s);
    }
  }

  /** The step of `NamedKeyOwner`: slot `n - 1` either leaves the entry of
      `s` alone or makes it. */
  lemma NamedOwnerStep(hints: seq<string>, n: nat, start: Claims, s: string)
    requires 0 < n <= |hints| && s in Named(hints, n, start).table
    requires s in Named(hints, n - 1, start).table ==> HeldBy(hints, Named(hints, n - 1, start), n - 1, s)
    ensures HeldBy(hints, Named(hints, n, start), n, s)
  {
    var c := Named(hints, n - 1, start);
    var a := Named(hints, n, start);
    if hints[n - 1] == "" {
      assert a == c by { NamedStep(hints, n - 1, start); }
    } else {
      var p := NamedClaim(c.table, hints[n - 1]);
      assert a == Claim(c, n - 1, p) by { NamedStep(hints, n - 1, start); }
      if s in c.table {
        ClaimKeepsOwner(c, n - 1, p, s);
      } else {
        ClaimOwns(c, n - 1, p);
      }
    }
  }

  /** A claim is recorded under its slot's index plus one, in that slot. */
  lemma ClaimOwns(c: Claims, i: nat, p: string)
    ensures var a := Claim(c, i, p);
      p in a.table && a.table[p] == i + 1 && i < |a.prefixes| && a.prefixes[i] == p
  {
  }

  /** A claim leaves other table entries and the slots that hold them
      alone. */
  lemma ClaimKeepsOwner(c: Claims, i: nat, p: string, s: string)
    requires s in c.table && p !in c.table && 1 <= c.table[s] <= i
    requires c.table[s] - 1 < |c.prefixes| && c.prefixes[c.table[s] - 1] == s
    ensures var a := Claim(c, i, p);
      s in a.table && a.table[s] == c.table[s] && a.table[s] - 1 < |a.prefixes| && a.prefixes[a.table[s] - 1] == s
  {
  }

  lemma {:induction false} UnnamedLength(hints: seq<string>, n: nat, start: Claims)
    requires n <= |hints|
    ensures |start.prefixes| <= |Unnamed(hints, n, start).0.prefixes| <= Max(|start.prefixes|, n)
    ensures n > 0 && hints[n - 1] == "" ==> n <= |Unnamed(hints, n, start).0.prefixes|
  {
    if n > 0 {
      UnnamedLength(hints, n - 1, start);
      var prev := Unnamed(hints, n - 1, start);
      if hints[n - 1] == "" {
        var k := FirstFree(prev.0.table, "p", prev.1 + 1);
        assert Unnamed(hints, n, start).0.prefixes == Put(prev.0.prefixes, n - 1, "p" + Str(k));
      }
    }
  }

  /** The second pass leaves named slots and slots past `n` alone. */
  lemma {:induction false} UnnamedKeepsSlot(hints: seq<string>, n: nat, start: Claims, k: nat)
    requires n <= |hints| && k < |start.prefixes| && !(k < n && hints[k] == "")
    ensures k < |Unnamed(hints, n, start).0.prefixes| && Unnamed(hints, n, start).0.prefixes[k] == start.prefixes[k]
  {
    if n > 0 {
      UnnamedKeepsSlot(hints, n - 1, start, k);
      var prev := Unnamed(hints, n - 1, start);
      if hints[n - 1] == "" {
        var p := "p" + Str(FirstFree(prev.0.table, "p", prev.1 + 1));
        assert Unnamed(hints, n, start).0 == Claims(Put(prev.0.prefixes, n - 1, p), prev.0.table[p := n]);
      }
    }
  }

  /** The second pass never changes an existing table entry. */
  lemma {:induction false} UnnamedKeepsKey(hints: seq<string>, n: nat, start: Claims, s: string)
    requires n <= |hints| && s in start.table
    ensures s in Unnamed(hints, n, start).0.table && Unnamed(hints, n, start).0.table[s] == start.table[s]
  {
    if n > 0 {
      UnnamedKeepsKey(hints, n - 1, start, s);
      var prev := Unnamed(hints, n - 1, start);
      if hints[n - 1] == "" {
        var p := "p" + Str(FirstFree(prev.0.table, "p", prev.1 + 1));
        assert Unnamed(hints, n, start).0 == Claims(Put(prev.0.prefixes, n - 1, p), prev.0.table[p := n]);
      }
    }
  }

  /** An unnamed slot keeps `p` followed by the counter value it left
      behind, recorded under its index plus one. */
  lemma {:induction false} UnnamedSlotClaim(hints: seq<string>, n: nat, start: Claims, j: nat)
    requires j < n <= |hints| && hints[j] == ""
    ensures var c := Unnamed(hints, n, start).0;
      j < |c.prefixes| && c.prefixes[j] == "p" + Str(Unnamed(hints, j + 1, start).1) &&
      c.prefixes[j] in c.table && c.table[c.prefixes[j]] == j + 1
  {
    if n > j + 1 {
      UnnamedSlotClaim(hints, n - 1, start, j);
      var prev := Unnamed(hints, n - 1, start);
      if hints[n - 1] == "" {
        var p := "p" + Str(FirstFree(prev.0.table, "p", prev.1 + 1));
        assert Unnamed(hints, n, start).0 == Claims(Put(prev.0.prefixes, n - 1, p), prev.0.table[p := n]);
      }
    }
  }

  /** An unnamed slot moves the counter strictly forward, and its prefix was
      not in the table before the pass. */
  lemma UnnamedClaimIsNew(hints: seq<string>, j: nat, start: Claims)
    requires j < |hints| && hints[j] == ""
    ensures Unnamed(hints, j, start).1 < Unnamed(hints, j + 1, start).1
    ensures "p" + Str(Unnamed(hints, j + 1, start).1) !in start.table
  {
    var p := "p" + Str(Unnamed(hints, j + 1, start).1);
    if p in start.table {
      UnnamedKeepsKey(hints, j, start, p);
    }
  }

  /** The shared counter never goes down. */
  lemma {:induction false} UnnamedCounterGrows(hints: seq<string>, m: nat, n: nat, start: Claims)
    requires m <= n <= |hints|
    ensures Unnamed(hints, m, start).1 <= Unnamed(hints, n, start).1
  {
    if m < n {
      UnnamedCounterGrows(hints, m, n - 1, start);
    }
  }

  /** After both passes the prefix list reaches at least to the end of the
      namespace list. */
  lemma PassesCover(hints: seq<string>, start: Claims)
    ensures |Unnamed(hints, |hints|, Named(hints, |hints|, start)).0.prefixes| == Max(|start.prefixes|, |hints|)
  {
    var n := |hints|;
    var named := Named(hints, n, start);
    var all := Unnamed(hints, n, named).0;
    NamedLength(hints, n, start);
    UnnamedLength(hints, n, named);
    if n > 0 {
      assert n <= |all.prefixes|;
    }
  }

  // ---------------------------------------------------------------------
  // Properties of copyPrefixes
  // ---------------------------------------------------------------------

  /** Slot `i` owns prefix `p` (written with its trailing ':'): the prefix
      without the colon is recorded in the table under `i + 1`. */
  ghost predicate Owns(table: map<string, nat>, p: string, i: nat) {
    |p| >= 2 && p[|p| - 1] == ':' && p[..|p| - 1] in table && table[p[..|p| - 1]] == i + 1
  }

  /** What the first pass gives a named slot `i`, seen in the final prefix
      list. */
  lemma NamedSlot(list: seq<Option<Namespace>>, prefixList: seq<string>, table: map<string, nat>, i: nat)
    requires i < |list| && Hint(list[i]) != ""
    ensures var r := Allocate(list, prefixList, table);
      Owns(r.table, r.prefixList[i], i) && r.prefixList[i][..|r.prefixList[i]| - 1] !in table &&
      r.prefixList[i] == NamedClaim(Named(Hints(list), i, Claims(prefixList, table)).table, Hint(list[i])) + ":"
  {
    var hints := Hints(list);
    var start := Claims(prefixList, table);
    var named := AfterNamed(list, prefixList, table);
    var all := AfterUnnamed(list, prefixList, table);
    assert hints[i] == Hint(list[i]);
    NamedSlotClaim(hints, |list|, start, i);
    NamedClaimIsNew(hints, i, start);
    var q := named.prefixes[i];
    UnnamedKeepsSlot(hints, |list|, named, i);
    UnnamedKeepsKey(hints, |list|, named, q);
    assert |q| >= |hints[i]| >= 1;
    var p := Allocate(list, prefixList, table).prefixList[i];
    assert p == q + ":";
    assert p[..|p| - 1] == q;
  }

  /** What the second pass gives an unnamed slot `i`, seen in the final
      prefix list. */
  lemma UnnamedSlot(list: seq<Option<Namespace>>, prefixList: seq<string>, table: map<string, nat>, i: nat)
    requires i < |list| && Hint(list[i]) == ""
    ensures var r := Allocate(list, prefixList, table);
      Owns(r.table, r.prefixList[i], i) && r.prefixList[i][..|r.prefixList[i]| - 1] !in table &&
      r.prefixList[i] == "p" + Str(Unnamed(Hints(list), i + 1, AfterNamed(list, prefixList, table)).1) + ":"
  {
    var hints := Hints(list);
    var start := Claims(prefixList, table);
    var named := AfterNamed(list, prefixList, table);
    var all := AfterUnnamed(list, prefixList, table);
    assert hints[i] == Hint(list[i]);
    UnnamedSlotClaim(hints, |list|, named, i);
    UnnamedClaimIsNew(hints, i, named);
    var q := all.prefixes[i];
    if q in table {
      NamedKeepsKey(hints, |list|, start, q);
    }
    var p := Allocate(list, prefixList, table).prefixList[i];
    assert p == q + ":";
    assert p[..|p| - 1] == q;
  }

  lemma SlotOwned(list: seq<Option<Namespace>>, prefixList: seq<string>, table: map<string, nat>, i: nat)
    requires i < |list|
    ensures var r := Allocate(list, prefixList, table);
      Owns(r.table, r.prefixList[i], i) && r.prefixList[i][..|r.prefixList[i]| - 1] !in table
  {
    if Hint(list[i]) == "" {
      UnnamedSlot(list, prefixList, table, i);
    } else {
      NamedSlot(list, prefixList, table, i);
    }
  }

  /** Every slot of the namespace list gets a prefix ending in ':', recorded
      in the table under its index plus one and not claimed before the call;
      the prefixes of the list are pairwise distinct; slots past the list and
      earlier table entries are left as they were. */
  lemma AllocateDistinct(list: seq<Option<Namespace>>, prefixList: seq<string>, table: map<string, nat>)
    ensures var r := Allocate(list, prefixList, table);
      forall i :: 0 <= i < |list| ==>
        Owns(r.table, r.prefixList[i], i) && r.prefixList[i][..|r.prefixList[i]| - 1] !in table
    ensures var r := Allocate(list, prefixList, table);
      forall i, j :: 0 <= i < |list| && 0 <= j < |list| && i != j ==> r.prefixList[i] != r.prefixList[j]
    ensures var r := Allocate(list, prefixList, table);
      forall i :: |list| <= i < |prefixList| ==> r.prefixList[i] == prefixList[i]
    ensures var r := Allocate(list, prefixList, table);
      forall s :: s in table ==> s in r.table && r.table[s] == table[s]
  {
    var hints := Hints(list);
    var start := Claims(prefixList, table);
    var named := AfterNamed(list, prefixList, table);
    var r := Allocate(list, prefixList, table);
    forall i | 0 <= i < |list|
      ensures Owns(r.table, r.prefixList[i], i) && r.prefixList[i][..|r.prefixList[i]| - 1] !in table
    {
      SlotOwned(list, prefixList, table, i);
    }
    forall i, j | 0 <= i < |list| && 0 <= j < |list| && i != j
      ensures r.prefixList[i] != r.prefixList[j]
    {
      SlotOwned(list, prefixList, table, i);
      SlotOwned(list, prefixList, table, j);
    }
    forall i | |list| <= i < |prefixList|
      ensures r.prefixList[i] == prefixList[i]
    {
      NamedKeepsSlot(hints, |list|, start, i);
      UnnamedKeepsSlot(hints, |list|, named, i);
    }
    forall s | s in table
      ensures s in r.table && r.table[s] == table[s]
    {
      NamedKeepsKey(hints, |list|, start, s);
      UnnamedKeepsKey(hints, |list|, named, s);
    }
  }

  /** Allocation never leaves an empty prefix behind: the slots of the list
      get prefixes ending in ':' and the other slots keep theirs. */
  lemma AllocateKeepsNonEmpty(list: seq<Option<Namespace>>, prefixList: seq<string>, table: map<string, nat>)
    requires forall i :: 0 <= i < |prefixList| ==> prefixList[i] != ""
    ensures var r := Allocate(list, prefixList, table);
      forall i :: 0 <= i < |r.prefixList| ==> r.prefixList[i] != ""
  {
    var r := Allocate(list, prefixList, table);
    AllocateDistinct(list, prefixList, table);
    forall i | 0 <= i < |r.prefixList|
      ensures r.prefixList[i] != ""
    {
      if i < |list| {
        assert Owns(r.table, r.prefixList[i], i);
      } else {
        assert r.prefixList[i] == prefixList[i];
      }
    }
  }

  /** Drops the last character of each of the first `n` prefixes. */
  function StripColons(prefixes: seq<string>, n: nat): (r: seq<string>)
    ensures |r| == |prefixes|
  {
    seq(|prefixes|, k requires 0 <= k < |prefixes| =>
      if k < n && prefixes[k] != [] then prefixes[k][..|prefixes[k]| - 1] else prefixes[k])
  }

  /** Stripping undoes the colon pass. */
  lemma StripColonsUndoes(prefixes: seq<string>, n: nat)
    ensures StripColons(Colons(prefixes, n), n) == prefixes
  {
    var r := StripColons(Colons(prefixes, n), n);
    forall k | 0 <= k < |prefixes|
      ensures r[k] == prefixes[k]
    {
      if k < n {
        var p := prefixes[k];
        assert (p + ":")[..|p|] == p;
      }
    }
  }

  /** The root declarations name each prefix as it was before its ':' was
      appended, in slot order. */
  lemma AllocateDeclarations(list: seq<Option<Namespace>>, prefixList: seq<string>, table: map<string, nat>)
    ensures var r := Allocate(list, prefixList, table);
      r.declarations == Declarations(list, StripColons(r.prefixList, |list|))
  {
    StripColonsUndoes(AfterUnnamed(list, prefixList, table).prefixes, |list|);
  }

  /** `Number("p12:") == 12`: the counter value an unnamed prefix carries. */
  function Number(p: string): nat {
    if |p| < 2 then 0 else Parse(p[1..|p| - 1])
  }

  lemma NumberOf(c: nat)
    ensures Number("p" + Str(c) + ":") == c
  {
    var p := "p" + Str(c) + ":";
    assert p[1..|p| - 1] == Str(c);
    ParseStr(c);
  }

  /** Unnamed slots get `p` followed by a number from 1 and a ':', and the
      numbers strictly increase with the slot index: one counter serves every
      unnamed slot and is never reset. */
  lemma AllocateUnnamedNumbers(list: seq<Option<Namespace>>, prefixList: seq<string>, table: map<string, nat>)
    ensures var r := Allocate(list, prefixList, table);
      forall i :: 0 <= i < |list| && Hint(list[i]) == "" ==>
        Number(r.prefixList[i]) >= 1 && r.prefixList[i] == "p" + Str(Number(r.prefixList[i])) + ":"
    ensures var r := Allocate(list, prefixList, table);
      forall i, j :: 0 <= i < j < |list| && Hint(list[i]) == "" && Hint(list[j]) == "" ==>
        Number(r.prefixList[i]) < Number(r.prefixList[j])
  {
    var r := Allocate(list, prefixList, table);
    forall i | 0 <= i < |list| && Hint(list[i]) == ""
      ensures Number(r.prefixList[i]) >= 1 && r.prefixList[i] == "p" + Str(Number(r.prefixList[i])) + ":"
    {
      UnnamedNumber(list, prefixList, table, i);
    }
    forall i, j | 0 <= i < j < |list| && Hint(list[i]) == "" && Hint(list[j]) == ""
      ensures Number(r.prefixList[i]) < Number(r.prefixList[j])
    {
      UnnamedOrder(list, prefixList, table, i, j);
    }
  }

  /** Two unnamed slots carry numbers in slot order. */
  lemma UnnamedOrder(list: seq<Option<Namespace>>, prefixList: seq<string>, table: map<string, nat>, i: nat, j: nat)
    requires i < j < |list| && Hint(list[i]) == "" && Hint(list[j]) == ""
    ensures var r := Allocate(list, prefixList, table);
      Number(r.prefixList[i]) < Number(r.prefixList[j])
  {
    var hints := Hints(list);
    var named := AfterNamed(list, prefixList, table);
    var r := Allocate(list, prefixList, table);
    assert Number(r.prefixList[i]) == Unnamed(hints, i + 1, named).1 by {
      UnnamedNumber(list, prefixList, table, i);
    }
    assert Number(r.prefixList[j]) == Unnamed(hints, j + 1, named).1 by {
      UnnamedNumber(list, prefixList, table, j);
    }
    assert Unnamed(hints, i + 1, named).1 < Unnamed(hints, j + 1, named).1 by {
      assert hints[j] == Hint(list[j]);
      UnnamedCountersOrdered(hints, i, j, named);
    }
  }

  /** The counter values two unnamed slots leave behind are in slot order. */
  lemma UnnamedCountersOrdered(hints: seq<string>, i: nat, j: nat, start: Claims)
    requires i < j < |hints| && hints[j] == ""
    ensures Unnamed(hints, i + 1, start).1 < Unnamed(hints, j + 1, start).1
  {
    UnnamedCounterGrows(hints, i + 1, j, start);
    UnnamedClaimIsNew(hints, j, start);
  }

  /** An unnamed slot's prefix is `p`, the counter value it left behind and
      a ':'; that value is larger than the one it found. */
  lemma UnnamedNumber(list: seq<Option<Namespace>>, prefixList: seq<string>, table: map<string, nat>, i: nat)
    requires i < |list| && Hint(list[i]) == ""
    ensures var r := Allocate(list, prefixList, table);
      var named := AfterNamed(list, prefixList, table);
      var c := Unnamed(Hints(list), i + 1, named).1;
      c > Unnamed(Hints(list), i, named).1 && r.prefixList[i] == "p" + Str(c) + ":" && Number(r.prefixList[i]) == c
  {
    var hints := Hints(list);
    var named := AfterNamed(list, prefixList, table);
    assert hints[i] == Hint(list[i]);
    UnnamedSlot(list, prefixList, table, i);
    UnnamedClaimIsNew(hints, i, named);
    NumberOf(Unnamed(hints, i + 1, named).1);
  }

  /** On a writer that has claimed nothing yet, every string claimed before
      slot `i` is the final prefix, less its colon, of an earlier slot. */
  lemma ClaimedBefore(list: seq<Option<Namespace>>, i: nat, s: string)
    requires i <= |list|
    requires s in Named(Hints(list), i, Claims([], map[])).table
    ensures exists j :: 0 <= j < i && Allocate(list, [], map[]).prefixList[j] == s + ":"
  {
    var hints := Hints(list);
    var before := Named(hints, i, Claims([], map[]));
    NamedKeyOwner(hints, i, Claims([], map[]), s);
    var j := before.table[s] - 1;
    NamedFinal(list, i, j);
  }

  /** A named slot's final prefix is the claim it holds after the first pass
      has visited it, followed by a ':'. */
  lemma NamedFinal(list: seq<Option<Namespace>>, i: nat, j: nat)
    requires j < i <= |list| && Hints(list)[j] != ""
    ensures var c := Named(Hints(list), i, Claims([], map[]));
      j < |c.prefixes| && Allocate(list, [], map[]).prefixList[j] == c.prefixes[j] + ":"
  {
    var hints := Hints(list);
    var start := Claims([], map[]);
    assert hints[j] == Hint(list[j]);
    NamedSlotClaim(hints, i, start, j);
    NamedSlot(list, [], map[], j);
  }

  /** On a writer that has claimed nothing yet, a named slot's prefix starts
      with its preferred prefix, and keeps it exactly when no earlier slot ended up with it;
      otherwise it gets the preferred prefix followed by a number `k >= 2`,
      and every candidate from 2 below `k` belongs to an earlier slot. */
  lemma AllocateHints(list: seq<Option<Namespace>>, i: nat)
    requires i < |list| && Hint(list[i]) != ""
    ensures var r := Allocate(list, [], map[]);
      |Hint(list[i])| < |r.prefixList[i]| && r.prefixList[i][..|Hint(list[i])|] == Hint(list[i])
    ensures var r := Allocate(list, [], map[]);
      r.prefixList[i] == Hint(list[i]) + ":" <==>
        forall j :: 0 <= j < i ==> r.prefixList[j] != Hint(list[i]) + ":"
    ensures var r := Allocate(list, [], map[]);
      r.prefixList[i] != Hint(list[i]) + ":" ==>
        var k := Parse(r.prefixList[i][|Hint(list[i])|..|r.prefixList[i]| - 1]);
        k >= 2 && r.prefixList[i] == Hint(list[i]) + Str(k) + ":" &&
        forall m :: 2 <= m < k ==> exists j :: 0 <= j < i && r.prefixList[j] == Hint(list[i]) + Str(m) + ":"
  {
    var h := Hint(list[i]);
    var before := Named(Hints(list), i, Claims([], map[]));
    var r := Allocate(list, [], map[]);
    NamedSlot(list, [], map[], i);
    var claim := NamedClaim(before.table, h);
    assert r.prefixList[i] == claim + ":";
    assert r.prefixList[i][..|h|] == claim[..|h|] == h;
    if h in before.table {
      ClaimedBefore(list, i, h);
      var k := FirstFree(before.table, h, 2);
      assert claim == h + Str(k);
      var p := r.prefixList[i];
      assert p[|h|..|p| - 1] == Str(k);
      ParseStr(k);
      assert |p| > |h + ":"|;
      forall m | 2 <= m < k
        ensures exists j :: 0 <= j < i && r.prefixList[j] == h + Str(m) + ":"
      {
        FirstFreeIsFirst(before.table, h, 2, m);
        ClaimedBefore(list, i, h + Str(m));
      }
    } else {
      forall j | 0 <= j < i
        ensures r.prefixList[j] != h + ":"
      {
        SlotOwned(list, [], map[], j);
        SlotOwned(list, [], map[], i);
      }
    }
  }

  /** The declaration of slot `i` sits in the root declaration string right
      after those of the slots before it and right before those of the
      slots after it. */
  lemma DeclarationsInOrder(list: seq<Option<Namespace>>, prefixes: seq<string>, i: nat)
    requires i < |prefixes|
    ensures var ds := DeclarationList(list, prefixes);
      Declarations(list, prefixes) == Join(ds[..i]) + Declaration(list, prefixes, i) + Join(ds[i + 1..])
  {
    var ds := DeclarationList(list, prefixes);
    assert ds == ds[..i] + [ds[i]] + ds[i + 1..];
    JoinAppend(ds[..i] + [ds[i]], ds[i + 1..]);
    JoinAppend(ds[..i], [ds[i]]);
    JoinSingle(ds[i]);
  }

  /** Slots past the end of the namespace list add nothing to the root
      declarations, even when an earlier, longer list left prefixes there. */
  lemma DeclarationsPastList(list: seq<Option<Namespace>>, prefixes: seq<string>)
    requires |list| <= |prefixes|
    ensures Declarations(list, prefixes) == Declarations(list, prefixes[..|list|])
  {
    var ds := DeclarationList(list, prefixes);
    var n := |list|;
    assert ds == ds[..n] + ds[n..];
    JoinAppend(ds[..n], ds[n..]);
    JoinEmpty(ds[n..]);
    assert ds[..n] == DeclarationList(list, prefixes[..n]);
    assert Join(ds[..n]) + "" == Join(ds[..n]);
  }

  /** A namespace list whose preferred prefixes are `a`, `a`, none, none. */
  const ExampleList: seq<Option<Namespace>> :=
    [Some(Namespace(0, "urn:a", "a")), Some(Namespace(1, "urn:b", "a")),
     Some(Namespace(2, "urn:c", "")), Some(Namespace(3, "urn:d", ""))]

  lemma ExampleNamedPass()
    ensures AfterNamed(ExampleList, [], map[]) == Claims(["a", "a2"], map["a" := 1, "a2" := 2])
  {
    var hints := Hints(ExampleList);
    assert hints == ["a", "a", "", ""];
    var start := Claims([], map[]);
    var t1 := map["a" := 1];
    var c1 := Named(hints, 1, start);
    assert c1 == Claims(["a"], t1) by {
      NamedStep(hints, 0, start);
      assert Put([], 0, "a") == ["a"];
    }
    assert NamedClaim(t1, "a") == "a2" by {
      assert Str(2) == "2" && "a" + Str(2) == "a2" && "a2" !in t1;
      assert FirstFree(t1, "a", 2) == 2;
    }
    var c2 := Named(hints, 2, start);
    assert c2 == Claims(["a", "a2"], t1["a2" := 2]) by {
      NamedStep(hints, 1, start);
      assert Put(["a"], 1, "a2") == ["a", "a2"];
    }
    assert Named(hints, 3, start) == c2 by { NamedStep(hints, 2, start); }
    assert Named(hints, 4, start) == c2 by { NamedStep(hints, 3, start); }
  }

  lemma ExampleUnnamedPass()
    ensures AfterUnnamed(ExampleList, [], map[]) ==
      Claims(["a", "a2", "p1", "p2"], map["a" := 1, "a2" := 2, "p1" := 3, "p2" := 4])
  {
    var hints := Hints(ExampleList);
    assert hints == ["a", "a", "", ""];
    ExampleNamedPass();
    var named := AfterNamed(ExampleList, [], map[]);
    var t2 := named.table;
    assert Str(1) == "1" && Str(2) == "2";
    assert "p" + Str(1) == "p1" && "p1" !in t2;
    assert FirstFree(t2, "p", 1) == 1;
    assert Put(["a", "a2"], 2, "p1") == ["a", "a2", "p1"];
    var t3 := t2["p1" := 3];
    assert Unnamed(hints, 1, named) == (named, 0);
    assert Unnamed(hints, 2, named) == (named, 0);
    assert Unnamed(hints, 3, named) == (Claims(["a", "a2", "p1"], t3), 1);
    assert "p" + Str(2) == "p2" && "p2" !in t3;
    assert FirstFree(t3, "p", 2) == 2;
    assert Put(["a", "a2", "p1"], 3, "p2") == ["a", "a2", "p1", "p2"];
  }

  /** A single namespace without a preferred prefix. */
  const SingleList: seq<Option<Namespace>> := [Some(Namespace(0, "urn:t", ""))]

  lemma SingleExample()
    ensures Allocate(SingleList, [], map[]).prefixList == ["p1:"]
  {
    var hints := Hints(SingleList);
    assert hints == [""];
    assert Named(hints, 1, Claims([], map[])) == Named(hints, 0, Claims([], map[]));
    var named := AfterNamed(SingleList, [], map[]);
    assert named == Claims([], map[]);
    assert Str(1) == "1" && "p" + Str(1) == "p1";
    assert FirstFree(map[], "p", 1) == 1;
    assert Put([], 0, "p1") == ["p1"];
    assert AfterUnnamed(SingleList, [], map[]).prefixes == ["p1"];
    var final := Colons(["p1"], 1);
    assert final[0] == "p1:";
  }

  /** One namespace preferring the prefix `a`. */
  const ListA: seq<Option<Namespace>> := [Some(Namespace(0, "urn:a", "a"))]

  /** Allocating the same list twice: the first time the namespace keeps
      `a`, the second time `a` is taken and it moves to `a2`. */
  lemma AllocateOnceExample()
    ensures Allocate(ListA, [], map[]).prefixList == ["a:"]
    ensures Allocate(ListA, [], map[]).table == map["a" := 1]
  {
    var hints := Hints(ListA);
    assert hints == ["a"];
    assert Put([], 0, "a") == ["a"];
    assert AfterNamed(ListA, [], map[]) == Claims(["a"], map["a" := 1]);
    assert Unnamed(hints, 1, Claims(["a"], map["a" := 1])) == Unnamed(hints, 0, Claims(["a"], map["a" := 1]));
    var first := Colons(["a"], 1);
    assert first[0] == "a:";
  }

  lemma AllocateAgainExample()
    ensures Allocate(ListA, ["a:"], map["a" := 1]).prefixList == ["a2:"]
  {
    var hints := Hints(ListA);
    assert hints == ["a"];
    var t := map["a" := 1];
    assert Str(2) == "2" && "a" + Str(2) == "a2" && "a2" !in t;
    assert FirstFree(t, "a", 2) == 2;
    assert NamedClaim(t, "a") == "a2";
    assert Put(["a:"], 0, "a2") == ["a2"];
    assert AfterNamed(ListA, ["a:"], t) == Claims(["a2"], t["a2" := 1]);
    assert Unnamed(hints, 1, Claims(["a2"], t["a2" := 1])) == Unnamed(hints, 0, Claims(["a2"], t["a2" := 1]));
    var second := Colons(["a2"], 1);
    assert second[0] == "a2:";
  }

  lemma ExampleDeclarations()
    ensures Declarations(ExampleList, ["a", "a2", "p1", "p2"]) ==
      " xmlns:a=\"urn:a\"" + " xmlns:a2=\"urn:b\"" + " xmlns:p1=\"urn:c\"" + " xmlns:p2=\"urn:d\""
  {
    var list, ps := ExampleList, ["a", "a2", "p1", "p2"];
    assert Declaration(list, ps, 0) == " xmlns:a=\"urn:a\"";
    assert Declaration(list, ps, 1) == " xmlns:a2=\"urn:b\"";
    assert Declaration(list, ps, 2) == " xmlns:p1=\"urn:c\"";
    assert Declaration(list, ps, 3) == " xmlns:p2=\"urn:d\"";
    var ds := DeclarationList(list, ps);
    assert ds == [ds[0], ds[1], ds[2], ds[3]];
    assert Join(ds) == ds[0] + Join([ds[1], ds[2], ds[3]]);
    assert Join([ds[1], ds[2], ds[3]]) == ds[1] + Join([ds[2], ds[3]]);
    JoinPair(ds[2], ds[3]);
  }

  lemma ExampleColons()
    ensures Colons(["a", "a2", "p1", "p2"], 4) == ["a:", "a2:", "p1:", "p2:"]
  {
    var final := Colons(["a", "a2", "p1", "p2"], 4);
    assert final[0] == "a:" && final[1] == "a2:" && final[2] == "p1:" && final[3] == "p2:";
  }

  /** Preferred prefixes `a`, `a`, none, none give `a:`, `a2:`, `p1:`, `p2:`,
      and the root declarations list all four in slot order. */
  lemma AllocateExample()
    ensures var r := Allocate(ExampleList, [], map[]);
      r.prefixList == ["a:", "a2:", "p1:", "p2:"] &&
      r.declarations == " xmlns:a=\"urn:a\"" + " xmlns:a2=\"urn:b\"" + " xmlns:p1=\"urn:c\"" + " xmlns:p2=\"urn:d\""
  {
    ExampleUnnamedPass();
    ExampleDeclarations();
    ExampleColons();
  }
}
