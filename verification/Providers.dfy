/**
 The provider registry. Providers of one name stand next to each other in a linked
 list, and only the first of them can be visible. Names are compared without regard
 to case.
 */
module Providers {
  import opened Basics
  import opened Links
  import opened Chains

  /** A name up to case: one number for all its spellings. */
  type Name = int

  datatype Mode = ByVersion | ByRegistration

  /** A registration that passed the checks: who, under what name, and whether it came from the preferred set. */
  datatype Reg = Reg(name: Name, id: nat, version: nat, preferred: bool)

  /** A list entry; without a registration it is a placeholder that keeps a name's rank. */
  datatype Entry = Entry(name: Name, reg: Option<Reg>, hidden: bool)

  /** The first entry of a name, as `ofi_getprov` finds it. */
  function Find(list: seq<Entry>, key: Name): (k: nat)
    ensures k <= |list| && (k < |list| ==> list[k].name == key)
    ensures forall i :: 0 <= i < k ==> list[i].name != key
  {
    if list == [] then 0
    else if list[0].name == key then 0
    else 1 + Find(list[1..], key)
  }

  /** `ofi_hide_cur_prov` */
  predicate Beats(r: Reg, cur: Reg, mode: Mode) {
    !cur.preferred && (r.preferred || (mode == ByVersion && cur.version < r.version))
  }

  /** The list after a registration; `filtered` says which providers the user excluded. */
  function Registered(list: seq<Entry>, r: Reg, mode: Mode, filtered: Reg -> bool): (list': seq<Entry>) {
    var key := r.name;
    var k := Find(list, key);
    if k == |list| then Inserted(list, k, Entry(r.name, Some(r), filtered(r)))
    else if list[k].reg.None? then list[k := list[k].(reg := Some(r), hidden := list[k].hidden || filtered(r))]
    else if Beats(r, list[k].reg.value, mode) then
      Inserted(list[k := list[k].(hidden := true)], k, Entry(r.name, Some(r), filtered(r)))
    else Inserted(list, k + 1, Entry(r.name, Some(r), true))
  }

  /** The registration of a name that has beaten all others so far. */
  function Champion(history: seq<Reg>, key: Name, mode: Mode): (c: Option<Reg>) {
    if history == [] then None
    else
      var n := |history| - 1;
      var c, r := Champion(history[..n], key, mode), history[n];
      if r.name == key && (c.None? || Beats(r, c.value, mode)) then Some(r) else c
  }

  /** If entries i and j have one name, so has the one before j; both are registered and j is hidden. */
  ghost predicate PairOk(list: seq<Entry>, i: nat, j: nat)
    requires i < j < |list|
  {
    list[i].name == list[j].name ==>
      list[j - 1].name == list[j].name && list[i].reg.Some? && list[j].reg.Some? && list[j].hidden
  }

  /** Entries of one name are adjacent, and behind the first they are registered and hidden. */
  ghost predicate Grouped(list: seq<Entry>) {
    && (forall i: nat, j: nat {:trigger PairOk(list, i, j)} :: i < j < |list| ==> PairOk(list, i, j))
    && (forall i :: 0 <= i < |list| && list[i].reg.Some? ==> list[i].reg.value.name == list[i].name)
  }

  /** The first entry of a name is its champion, and it is hidden exactly if the filter excludes it. */
  ghost predicate LedBy(list: seq<Entry>, key: Name, c: Option<Reg>, filtered: Reg -> bool) {
    var k := Find(list, key);
    if k == |list| then c == None
    else list[k].reg == c && list[k].hidden == (c.Some? && filtered(c.value))
  }

  ghost predicate Led(list: seq<Entry>, history: seq<Reg>, mode: Mode, filtered: Reg -> bool) {
    forall key :: LedBy(list, key, Champion(history, key, mode), filtered)
  }

  lemma {:induction false} FindIs(list: seq<Entry>, key: Name, k: nat)
    requires k <= |list| && (k < |list| ==> list[k].name == key)
    requires forall i :: 0 <= i < k ==> list[i].name != key
    ensures Find(list, key) == k
  {
  }

  lemma ChampionNext(history: seq<Reg>, r: Reg, key: Name, mode: Mode)
    ensures var c := Champion(history, key, mode);
            Champion(history + [r], key, mode) ==
            if r.name == key && (c.None? || Beats(r, c.value, mode)) then Some(r) else c
  {
    assert (history + [r])[..|history|] == history;
  }

  /** Both lists have the same first entry of a name. */
  ghost predicate SameFirst(a: seq<Entry>, b: seq<Entry>, key: Name) {
    var j, i := Find(a, key), Find(b, key);
    (j == |a| <==> i == |b|) && (j < |a| ==> b[i] == a[j])
  }

  lemma InsertedKeeps(list: seq<Entry>, k: nat, e: Entry, key: Name)
    requires k <= |list| && key != e.name
    ensures SameFirst(list, Inserted(list, k, e), key)
  {
    var j := Find(list, key);
    FindIs(Inserted(list, k, e), key, if j < k then j else j + 1);
  }

  lemma UpdatedKeeps(list: seq<Entry>, k: nat, e: Entry, key: Name)
    requires k < |list| && key != e.name && e.name == list[k].name
    ensures SameFirst(list, list[k := e], key)
  {
    FindIs(list[k := e], key, Find(list, key));
  }

  lemma DisplacedKeeps(list: seq<Entry>, k: nat, e: Entry, key: Name)
    requires k < |list| && key != e.name && e.name == list[k].name
    ensures SameFirst(list, Inserted(list[k := list[k].(hidden := true)], k, e), key)
  {
    UpdatedKeeps(list, k, list[k].(hidden := true), key);
    InsertedKeeps(list[k := list[k].(hidden := true)], k, e, key);
  }

  /** A registration leaves the first entries of other names alone. */
  lemma {:induction false} OtherName(list: seq<Entry>, r: Reg, mode: Mode, filtered: Reg -> bool, key: Name)
    requires key != r.name
    ensures SameFirst(list, Registered(list, r, mode, filtered), key)
  {
    var k := Find(list, r.name);
    if k == |list| {
      InsertedKeeps(list, k, Entry(r.name, Some(r), filtered(r)), key);
    } else if list[k].reg.None? {
      UpdatedKeeps(list, k, list[k].(reg := Some(r), hidden := list[k].hidden || filtered(r)), key);
    } else if Beats(r, list[k].reg.value, mode) {
      DisplacedKeeps(list, k, Entry(r.name, Some(r), filtered(r)), key);
    } else {
      InsertedKeeps(list, k + 1, Entry(r.name, Some(r), true), key);
    }
  }

  lemma {:induction false} OwnName(list: seq<Entry>, r: Reg, mode: Mode, filtered: Reg -> bool, c: Option<Reg>)
    requires LedBy(list, r.name, c, filtered)
    ensures var c' := if c.None? || Beats(r, c.value, mode) then Some(r) else c;
            LedBy(Registered(list, r, mode, filtered), r.name, c', filtered)
  {
    var list' := Registered(list, r, mode, filtered);
    var k := Find(list, r.name);
    assert forall i :: 0 <= i < k ==> list'[i] == list[i];
    FindIs(list', r.name, k);
  }

  lemma {:induction false} LedNext(list: seq<Entry>, history: seq<Reg>, r: Reg, mode: Mode, filtered: Reg -> bool)
    requires Led(list, history, mode, filtered)
    ensures Led(Registered(list, r, mode, filtered), history + [r], mode, filtered)
  {
    var list' := Registered(list, r, mode, filtered);
    forall key ensures LedBy(list', key, Champion(history + [r], key, mode), filtered) {
      ChampionNext(history, r, key, mode);
      assert LedBy(list, key, Champion(history, key, mode), filtered);
      if key == r.name {
        OwnName(list, r, mode, filtered, Champion(history, key, mode));
      } else {
        OtherName(list, r, mode, filtered, key);
      }
    }
  }

  /** Placing an entry next to those of its name, or at the end, keeps them together. */
  lemma GroupedInserted(list: seq<Entry>, k: nat, e: Entry)
    requires Grouped(list) && k <= |list| && e.reg.Some? && e.reg.value.name == e.name
    requires var f := Find(list, e.name);
             if f == |list| then k == f
             else list[f].reg.Some? && ((k == f && list[f].hidden) || (k == f + 1 && e.hidden))
    ensures Grouped(Inserted(list, k, e))
  {
    var f, list' := Find(list, e.name), Inserted(list, k, e);
    forall i: nat, j: nat | i < j < |list'| ensures PairOk(list', i, j) {
      if i < k && j != k {
        assert PairOk(list, i, if j < k then j else j - 1);
      } else if i >= k {
        if i > k { assert PairOk(list, i - 1, j - 1); }
        if f < j - 1 { assert PairOk(list, f, j - 1); }
      }
    }
  }

  lemma GroupedUpdated(list: seq<Entry>, k: nat, e: Entry)
    requires Grouped(list) && k < |list| && e.name == list[k].name && e.reg.Some? && e.reg.value.name == e.name
    requires list[k].hidden ==> e.hidden
    ensures Grouped(list[k := e])
  {
    var list' := list[k := e];
    forall i: nat, j: nat | i < j < |list'| ensures PairOk(list', i, j) { assert PairOk(list, i, j); }
  }

  lemma {:induction false} GroupedNext(list: seq<Entry>, r: Reg, mode: Mode, filtered: Reg -> bool)
    requires Grouped(list)
    ensures Grouped(Registered(list, r, mode, filtered))
  {
    var k := Find(list, r.name);
    if k == |list| {
      GroupedInserted(list, k, Entry(r.name, Some(r), filtered(r)));
    } else if list[k].reg.None? {
      GroupedUpdated(list, k, list[k].(reg := Some(r), hidden := list[k].hidden || filtered(r)));
    } else {
      if Beats(r, list[k].reg.value, mode) {
        var list1 := list[k := list[k].(hidden := true)];
        GroupedUpdated(list, k, list[k].(hidden := true));
        FindIs(list1, r.name, k);
        GroupedInserted(list1, k, Entry(r.name, Some(r), filtered(r)));
      } else {
        GroupedInserted(list, k + 1, Entry(r.name, Some(r), true));
      }
    }
  }

  /** How often a registration is among the first n entries. */
  ghost function Occ(list: seq<Entry>, n: nat, r: Reg): (c: nat)
    requires n <= |list|
  {
    if n == 0 then 0 else Occ(list, n - 1, r) + if list[n - 1].reg == Some(r) then 1 else 0
  }

  /** Every registration is listed as often as it was accepted. */
  ghost predicate Complete(list: seq<Entry>, history: seq<Reg>) {
    forall r :: Occ(list, |list|, r) == multiset(history)[r]
  }

  lemma {:induction false} OccSame(a: seq<Entry>, b: seq<Entry>, n: nat, r: Reg)
    requires n <= |a| && n <= |b| && forall i :: 0 <= i < n ==> a[i].reg == b[i].reg
    ensures Occ(a, n, r) == Occ(b, n, r)
  {
    if n > 0 { OccSame(a, b, n - 1, r); }
  }

  lemma {:induction false} OccInserted(list: seq<Entry>, k: nat, e: Entry, n: nat, r: Reg)
    requires k <= n <= |list|
    ensures Occ(Inserted(list, k, e), n + 1, r) == Occ(list, n, r) + if e.reg == Some(r) then 1 else 0
  {
    if n == k {
      OccSame(list, Inserted(list, k, e), k, r);
    } else {
      OccInserted(list, k, e, n - 1, r);
    }
  }

  lemma {:induction false} OccFilled(list: seq<Entry>, k: nat, e: Entry, n: nat, r: Reg)
    requires k < n <= |list| && list[k].reg.None?
    ensures Occ(list[k := e], n, r) == Occ(list, n, r) + if e.reg == Some(r) then 1 else 0
  {
    if n == k + 1 {
      OccSame(list, list[k := e], k, r);
    } else {
      OccFilled(list, k, e, n - 1, r);
    }
  }

  lemma OccDisplaced(list: seq<Entry>, k: nat, e: Entry, r: Reg)
    requires k < |list|
    ensures var list' := Inserted(list[k := list[k].(hidden := true)], k, e);
            Occ(list', |list'|, r) == Occ(list, |list|, r) + if e.reg == Some(r) then 1 else 0
  {
    var list1 := list[k := list[k].(hidden := true)];
    OccSame(list, list1, |list|, r);
    OccInserted(list1, k, e, |list|, r);
  }

  lemma OccNext(list: seq<Entry>, added: Reg, mode: Mode, filtered: Reg -> bool, r: Reg)
    ensures var list' := Registered(list, added, mode, filtered);
            Occ(list', |list'|, r) == Occ(list, |list|, r) + if r == added then 1 else 0
  {
    var k := Find(list, added.name);
    if k == |list| {
      OccInserted(list, k, Entry(added.name, Some(added), filtered(added)), |list|, r);
    } else if list[k].reg.None? {
      OccFilled(list, k, list[k].(reg := Some(added), hidden := list[k].hidden || filtered(added)), |list|, r);
    } else if Beats(added, list[k].reg.value, mode) {
      OccDisplaced(list, k, Entry(added.name, Some(added), filtered(added)), r);
    } else {
      OccInserted(list, k + 1, Entry(added.name, Some(added), true), |list|, r);
    }
  }

  lemma CompleteNext(list: seq<Entry>, history: seq<Reg>, r: Reg, mode: Mode, filtered: Reg -> bool)
    requires Complete(list, history)
    ensures Complete(Registered(list, r, mode, filtered), history + [r])
  {
    var list' := Registered(list, r, mode, filtered);
    forall q ensures Occ(list', |list'|, q) == multiset(history + [r])[q] {
      OccNext(list, r, mode, filtered, q);
    }
  }

  /** Where a name first occurs among the names placed or registered so far; past the end if nowhere. */
  ghost function Rank(named: seq<Name>, key: Name): (k: nat)
    ensures k <= |named| && (k < |named| ==> named[k] == key)
    ensures forall i :: 0 <= i < k ==> named[i] != key
  {
    if named == [] then 0 else if named[0] == key then 0 else 1 + Rank(named[1..], key)
  }

  lemma {:induction false} RankIs(named: seq<Name>, key: Name, k: nat)
    requires k <= |named| && (k < |named| ==> named[k] == key)
    requires forall i :: 0 <= i < k ==> named[i] != key
    ensures Rank(named, key) == k
  {
  }

  lemma {:induction false} RankNext(named: seq<Name>, name: Name, key: Name)
    ensures Rank(named + [name], key) ==
            if Rank(named, key) < |named| || key == name then Rank(named, key) else |named| + 1
  {
    var k := Rank(named, key);
    RankIs(named + [name], key, if k < |named| || key == name then k else k + 1);
  }

  /** Names stand in the order in which they were first placed or registered, and exactly those are listed. */
  ghost predicate Ranked(list: seq<Entry>, named: seq<Name>) {
    && (forall i, j :: 0 <= i <= j < |list| ==> Rank(named, list[i].name) <= Rank(named, list[j].name) < |named|)
    && (forall key :: key in named ==> Find(list, key) < |list|)
  }

  /** An entry goes to the end under a new name, or next to one of its own name. */
  ghost predicate Fits(list: seq<Entry>, k: nat, name: Name) {
    || (k == |list| && Find(list, name) == |list|)
    || (k < |list| && list[k].name == name)
    || (0 < k <= |list| && list[k - 1].name == name)
  }

  lemma {:induction false} ListedRank(list: seq<Entry>, named: seq<Name>, name: Name)
    requires Ranked(list, named)
    ensures Find(list, name) == |list| ==> Rank(named, name) == |named|
  {
    if Rank(named, name) < |named| { assert named[Rank(named, name)] in named; }
  }

  lemma {:induction false} InsertedHas(list: seq<Entry>, k: nat, e: Entry, key: Name)
    requires k <= |list| && (Find(list, key) < |list| || key == e.name)
    ensures Find(Inserted(list, k, e), key) < |list| + 1
  {
    var list' := Inserted(list, k, e);
    if key == e.name {
      assert list'[k].name == key;
    } else {
      var j := Find(list, key);
      assert list'[if j < k then j else j + 1].name == key;
    }
  }

  lemma {:induction false} RankedInserted(list: seq<Entry>, named: seq<Name>, k: nat, e: Entry)
    requires Ranked(list, named) && k <= |list| && Fits(list, k, e.name)
    ensures Ranked(Inserted(list, k, e), named + [e.name])
  {
    var list', named' := Inserted(list, k, e), named + [e.name];
    ListedRank(list, named, e.name);
    forall i, j | 0 <= i <= j < |list'|
      ensures Rank(named', list'[i].name) <= Rank(named', list'[j].name) < |named'|
    {
      RankNext(named, e.name, list'[i].name);
      RankNext(named, e.name, list'[j].name);
      assert i < k ==> list'[i] == list[i];
      assert j > k ==> list'[j] == list[j - 1];
    }
    forall key | key in named' ensures Find(list', key) < |list'| { InsertedHas(list, k, e, key); }
  }

  /** The same names in the same places. */
  ghost predicate SameNames(a: seq<Entry>, b: seq<Entry>) {
    |a| == |b| && forall i :: 0 <= i < |a| ==> a[i].name == b[i].name
  }

  lemma {:induction false} RankedSame(a: seq<Entry>, b: seq<Entry>, named: seq<Name>)
    requires Ranked(a, named) && SameNames(a, b)
    ensures Ranked(b, named)
  {
    forall key ensures Find(b, key) == Find(a, key) { FindIs(b, key, Find(a, key)); }
  }

  /** Naming again a name that is listed changes no rank. */
  lemma {:induction false} RankedAgain(list: seq<Entry>, named: seq<Name>, name: Name)
    requires Ranked(list, named) && Find(list, name) < |list|
    ensures Ranked(list, named + [name])
  {
    var named' := named + [name];
    forall i, j | 0 <= i <= j < |list| ensures Rank(named', list[i].name) <= Rank(named', list[j].name) < |named'| {
      RankNext(named, name, list[i].name);
      RankNext(named, name, list[j].name);
    }
  }

  lemma {:induction false} RankedFilled(list: seq<Entry>, named: seq<Name>, k: nat, e: Entry)
    requires Ranked(list, named) && k < |list| && e.name == list[k].name
    ensures Ranked(list[k := e], named + [e.name])
  {
    RankedSame(list, list[k := e], named);
    FindIs(list, e.name, Find(list, e.name));
    RankedAgain(list[k := e], named, e.name);
  }

  lemma {:induction false} RankedDisplaced(list: seq<Entry>, named: seq<Name>, k: nat, e: Entry)
    requires Ranked(list, named) && k < |list| && e.name == list[k].name
    ensures Ranked(Inserted(list[k := list[k].(hidden := true)], k, e), named + [e.name])
  {
    var list1 := list[k := list[k].(hidden := true)];
    RankedSame(list, list1, named);
    RankedInserted(list1, named, k, e);
  }

  /** A registration keeps the order of the names and puts a new name last. */
  lemma {:induction false} RankedNext(list: seq<Entry>, named: seq<Name>, r: Reg, mode: Mode, filtered: Reg -> bool)
    requires Ranked(list, named)
    ensures Ranked(Registered(list, r, mode, filtered), named + [r.name])
  {
    var k := Find(list, r.name);
    if k == |list| {
      RankedInserted(list, named, k, Entry(r.name, Some(r), filtered(r)));
    } else if list[k].reg.None? {
      RankedFilled(list, named, k, list[k].(reg := Some(r), hidden := list[k].hidden || filtered(r)));
    } else if Beats(r, list[k].reg.value, mode) {
      RankedDisplaced(list, named, k, Entry(r.name, Some(r), filtered(r)));
    } else {
      RankedInserted(list, named, k + 1, Entry(r.name, Some(r), true));
    }
  }

  /** The registration of an entry, if it is one of the name. */
  ghost function One(e: Entry, key: Name): (regs: seq<Reg>) {
    if e.name == key && e.reg.Some? then [e.reg.value] else []
  }

  /** The registrations of a name, in list order. */
  ghost function Of(list: seq<Entry>, key: Name): (regs: seq<Reg>) {
    if list == [] then [] else Of(list[..|list| - 1], key) + One(list[|list| - 1], key)
  }

  lemma {:induction false} OfConcat(a: seq<Entry>, b: seq<Entry>, key: Name)
    ensures Of(a + b, key) == Of(a, key) + Of(b, key)
  {
    if b == [] {
      assert a + b == a;
    } else {
      var n := |b| - 1;
      OfConcat(a, b[..n], key);
      assert (a + b)[..|a + b| - 1] == a + b[..n];
    }
  }

  lemma {:induction false} OfNone(list: seq<Entry>, key: Name)
    requires forall j :: 0 <= j < |list| ==> One(list[j], key) == []
    ensures Of(list, key) == []
  {
    if list != [] { OfNone(list[..|list| - 1], key); }
  }

  /** Hidden or not makes no difference. */
  lemma {:induction false} OfSame(a: seq<Entry>, b: seq<Entry>, key: Name)
    requires |a| == |b| && forall j :: 0 <= j < |a| ==> a[j].name == b[j].name && a[j].reg == b[j].reg
    ensures Of(a, key) == Of(b, key)
  {
    if a != [] { OfSame(a[..|a| - 1], b[..|b| - 1], key); }
  }

  lemma {:induction false} OfCons(e: Entry, b: seq<Entry>, key: Name)
    ensures Of([e] + b, key) == One(e, key) + Of(b, key)
  {
    OfConcat([e], b, key);
    assert [e][..0] == [];
    assert [] + One(e, key) == One(e, key);
  }

  /** With nothing of the name before it, an entry comes first. */
  lemma {:induction false} OfLed(a: seq<Entry>, c: Entry, b: seq<Entry>, key: Name)
    requires Of(a, key) == []
    ensures Of(a + ([c] + b), key) == One(c, key) + Of(b, key)
  {
    OfConcat(a, [c] + b, key);
    OfCons(c, b, key);
    assert [] + Of([c] + b, key) == Of([c] + b, key);
  }

  lemma {:induction false} OfLedTwo(a: seq<Entry>, c: Entry, d: Entry, b: seq<Entry>, key: Name)
    requires Of(a, key) == []
    ensures Of(a + ([c] + ([d] + b)), key) == One(c, key) + (One(d, key) + Of(b, key))
  {
    OfLed(a, c, [d] + b, key);
    OfCons(d, b, key);
  }

  /** An entry of another name makes no difference. */
  lemma {:induction false} OfOmit(a: seq<Entry>, c: Entry, b: seq<Entry>, key: Name)
    requires c.name != key
    ensures Of(a + ([c] + b), key) == Of(a + b, key)
  {
    OfConcat(a, [c] + b, key);
    OfCons(c, b, key);
    OfConcat(a, b, key);
    assert [] + Of(b, key) == Of(b, key);
  }

  lemma InsertedIs(list: seq<Entry>, k: nat, e: Entry)
    requires k <= |list|
    ensures Inserted(list, k, e) == list[..k] + ([e] + list[k..]) && list == list[..k] + list[k..]
  {
  }

  lemma UpdatedIs(list: seq<Entry>, k: nat, e: Entry)
    requires k < |list|
    ensures list[k := e] == list[..k] + ([e] + list[k + 1..])
  {
  }

  /** Put in before or behind the entry at position k, which gives way as c. */
  lemma BesideIs(list: seq<Entry>, k: nat, c: Entry, e: Entry)
    requires k < |list|
    ensures Inserted(list[k := c], k, e) == list[..k] + ([e] + ([c] + list[k + 1..]))
    ensures Inserted(list[k := c], k + 1, e) == list[..k] + ([c] + ([e] + list[k + 1..]))
  {
  }

  /** Whoever lost out at each later registration of a name, the latest first. */
  ghost function Losers(history: seq<Reg>, key: Name, mode: Mode): (regs: seq<Reg>) {
    if history == [] then []
    else
      var n := |history| - 1;
      var c, r := Champion(history[..n], key, mode), history[n];
      var loser := if r.name != key || c.None? then [] else if Beats(r, c.value, mode) then [c.value] else [r];
      loser + Losers(history[..n], key, mode)
  }

  /** A name's champion, and behind it those that lost out to it or before it, the latest loser first. */
  ghost function Lineup(history: seq<Reg>, key: Name, mode: Mode): (regs: seq<Reg>) {
    var c := Champion(history, key, mode);
    (if c.Some? then [c.value] else []) + Losers(history, key, mode)
  }

  ghost predicate Lined(list: seq<Entry>, history: seq<Reg>, mode: Mode) {
    forall key :: Of(list, key) == Lineup(history, key, mode)
  }

  /** A new registration among those of its name: first, or right behind the first. */
  ghost function Joins(regs: seq<Reg>, r: Reg, mode: Mode): (regs': seq<Reg>) {
    if regs == [] || Beats(r, regs[0], mode) then [r] + regs else [regs[0]] + ([r] + regs[1..])
  }

  lemma {:induction false} JoinsIs(c: Reg, rest: seq<Reg>, r: Reg, mode: Mode)
    ensures Joins([c] + rest, r, mode) == if Beats(r, c, mode) then [r] + ([c] + rest) else [c] + ([r] + rest)
    ensures Joins([], r, mode) == [r]
  {
    assert ([c] + rest)[1..] == rest;
  }

  lemma {:induction false} LosersOf(history: seq<Reg>, key: Name, mode: Mode)
    ensures Champion(history, key, mode).None? ==> Losers(history, key, mode) == []
  {
    if history != [] { LosersOf(history[..|history| - 1], key, mode); }
  }

  lemma {:induction false} LosersNext(history: seq<Reg>, r: Reg, key: Name, mode: Mode)
    ensures var c := Champion(history, key, mode);
            Losers(history + [r], key, mode) ==
            if r.name != key || c.None? then Losers(history, key, mode)
            else [if Beats(r, c.value, mode) then c.value else r] + Losers(history, key, mode)
  {
    assert (history + [r])[..|history|] == history;
    assert [] + Losers(history, key, mode) == Losers(history, key, mode);
  }

  lemma {:induction false} LineupNext(history: seq<Reg>, r: Reg, key: Name, mode: Mode)
    ensures Lineup(history + [r], key, mode) ==
            if r.name != key then Lineup(history, key, mode) else Joins(Lineup(history, key, mode), r, mode)
  {
    var c := Champion(history, key, mode);
    ChampionNext(history, r, key, mode);
    LosersNext(history, r, key, mode);
    LosersOf(history, key, mode);
    JoinsIs(if c.Some? then c.value else r, Losers(history, key, mode), r, mode);
  }

  lemma {:induction false} OtherInserted(list: seq<Entry>, k: nat, e: Entry, key: Name)
    requires k <= |list| && e.name != key
    ensures Of(Inserted(list, k, e), key) == Of(list, key)
  {
    InsertedIs(list, k, e);
    OfOmit(list[..k], e, list[k..], key);
  }

  lemma {:induction false} OtherUpdated(list: seq<Entry>, k: nat, e: Entry, key: Name)
    requires k < |list| && e.name == list[k].name != key
    ensures Of(list[k := e], key) == Of(list, key)
  {
    UpdatedIs(list, k, e);
    UpdatedIs(list, k, list[k]);
    assert list[k := list[k]] == list;
    OfOmit(list[..k], e, list[k + 1..], key);
    OfOmit(list[..k], list[k], list[k + 1..], key);
  }

  /** The entries of another name are as before. */
  lemma {:induction false} OfOther(list: seq<Entry>, r: Reg, mode: Mode, filtered: Reg -> bool, key: Name)
    requires key != r.name
    ensures Of(Registered(list, r, mode, filtered), key) == Of(list, key)
  {
    var k := Find(list, r.name);
    if k == |list| {
      OtherInserted(list, k, Entry(r.name, Some(r), filtered(r)), key);
    } else if list[k].reg.None? {
      OtherUpdated(list, k, list[k].(reg := Some(r), hidden := list[k].hidden || filtered(r)), key);
    } else if Beats(r, list[k].reg.value, mode) {
      OtherUpdated(list, k, list[k].(hidden := true), key);
      OtherInserted(list[k := list[k].(hidden := true)], k, Entry(r.name, Some(r), filtered(r)), key);
    } else {
      OtherInserted(list, k + 1, Entry(r.name, Some(r), true), key);
    }
  }

  /** Nothing of a name comes before its first entry, and that one leads. */
  lemma {:induction false} OfFirst(list: seq<Entry>, key: Name)
    ensures Of(list[..Find(list, key)], key) == []
    ensures var k := Find(list, key); k < |list| ==> Of(list, key) == One(list[k], key) + Of(list[k + 1..], key)
  {
    var k := Find(list, key);
    OfNone(list[..k], key);
    if k < |list| {
      UpdatedIs(list, k, list[k]);
      assert list[k := list[k]] == list;
      OfLed(list[..k], list[k], list[k + 1..], key);
    }
  }

  /** A placeholder stands alone. */
  lemma {:induction false} OfPlace(list: seq<Entry>, key: Name)
    requires Grouped(list) && Find(list, key) < |list| && list[Find(list, key)].reg.None?
    ensures Of(list[Find(list, key) + 1..], key) == []
  {
    var k := Find(list, key);
    var rest := list[k + 1..];
    forall j | 0 <= j < |rest| ensures One(rest[j], key) == [] { assert PairOk(list, k, k + 1 + j); }
    OfNone(rest, key);
  }

  lemma {:induction false} OwnAppended(list: seq<Entry>, e: Entry)
    requires Find(list, e.name) == |list|
    ensures Of(list, e.name) == [] && Of(Inserted(list, |list|, e), e.name) == One(e, e.name)
  {
    OfNone(list, e.name);
    assert Inserted(list, |list|, e) == list + ([e] + []);
    OfLed(list, e, [], e.name);
  }

  lemma {:induction false} OwnFilled(list: seq<Entry>, e: Entry)
    requires Grouped(list) && Find(list, e.name) < |list| && list[Find(list, e.name)].reg.None?
    ensures Of(list, e.name) == [] && Of(list[Find(list, e.name) := e], e.name) == One(e, e.name)
  {
    var k := Find(list, e.name);
    OfPlace(list, e.name);
    OfFirst(list, e.name);
    UpdatedIs(list, k, e);
    OfLed(list[..k], e, list[k + 1..], e.name);
  }

  lemma {:induction false} OwnBeside(list: seq<Entry>, k: nat, c: Entry, e: Entry)
    requires k == Find(list, e.name) < |list| && One(c, e.name) == One(list[k], e.name)
    ensures Of(list, e.name) == One(c, e.name) + Of(list[k + 1..], e.name)
    ensures Of(Inserted(list[k := c], k, e), e.name) == One(e, e.name) + (One(c, e.name) + Of(list[k + 1..], e.name))
    ensures Of(Inserted(list[k := c], k + 1, e), e.name) ==
            One(c, e.name) + (One(e, e.name) + Of(list[k + 1..], e.name))
  {
    OfFirst(list, e.name);
    BesideIs(list, k, c, e);
    OfLedTwo(list[..k], e, c, list[k + 1..], e.name);
    OfLedTwo(list[..k], c, e, list[k + 1..], e.name);
  }

  lemma {:induction false} OwnBehind(list: seq<Entry>, k: nat, e: Entry)
    requires k == Find(list, e.name) < |list|
    ensures Of(list, e.name) == One(list[k], e.name) + Of(list[k + 1..], e.name)
    ensures Of(Inserted(list, k + 1, e), e.name) ==
            One(list[k], e.name) + (One(e, e.name) + Of(list[k + 1..], e.name))
  {
    OwnBeside(list, k, list[k], e);
    assert list[k := list[k]] == list;
  }

  lemma {:induction false} OwnNext(list: seq<Entry>, k: nat, r: Reg, mode: Mode, filtered: Reg -> bool)
    requires k == Find(list, r.name) < |list| && list[k].reg.Some?
    ensures Of(list, r.name) == [list[k].reg.value] + Of(list[k + 1..], r.name)
    ensures Of(Registered(list, r, mode, filtered), r.name) ==
            var c, rest := list[k].reg.value, Of(list[k + 1..], r.name);
            if Beats(r, c, mode) then [r] + ([c] + rest) else [c] + ([r] + rest)
  {
    if Beats(r, list[k].reg.value, mode) {
      OwnBeside(list, k, list[k].(hidden := true), Entry(r.name, Some(r), filtered(r)));
    } else {
      OwnBehind(list, k, Entry(r.name, Some(r), true));
    }
  }

  lemma {:induction false} OwnFirst(list: seq<Entry>, r: Reg, mode: Mode, filtered: Reg -> bool)
    requires Grouped(list) && (Find(list, r.name) < |list| ==> list[Find(list, r.name)].reg.None?)
    ensures Of(list, r.name) == [] && Of(Registered(list, r, mode, filtered), r.name) == [r]
  {
    var k := Find(list, r.name);
    if k == |list| {
      OwnAppended(list, Entry(r.name, Some(r), filtered(r)));
    } else {
      OwnFilled(list, list[k].(reg := Some(r), hidden := list[k].hidden || filtered(r)));
    }
  }

  lemma {:induction false} OfOwn(list: seq<Entry>, r: Reg, mode: Mode, filtered: Reg -> bool)
    requires Grouped(list)
    ensures Of(Registered(list, r, mode, filtered), r.name) == Joins(Of(list, r.name), r, mode)
  {
    var k := Find(list, r.name);
    if k < |list| && list[k].reg.Some? {
      OwnNext(list, k, r, mode, filtered);
      JoinsIs(list[k].reg.value, Of(list[k + 1..], r.name), r, mode);
    } else {
      OwnFirst(list, r, mode, filtered);
      JoinsIs(r, [], r, mode);
    }
  }

  lemma {:induction false} LinedNext(list: seq<Entry>, history: seq<Reg>, r: Reg, mode: Mode, filtered: Reg -> bool)
    requires Grouped(list) && Lined(list, history, mode)
    ensures Lined(Registered(list, r, mode, filtered), history + [r], mode)
  {
    var list' := Registered(list, r, mode, filtered);
    forall key ensures Of(list', key) == Lineup(history + [r], key, mode) {
      LineupNext(history, r, key, mode);
      assert Of(list, key) == Lineup(history, key, mode);
      if key == r.name {
        OfOwn(list, r, mode, filtered);
      } else {
        OfOther(list, r, mode, filtered, key);
      }
    }
  }

  /** A champion is a registration of its name: the first preferred one, else the newest or the first by the mode. */
  lemma {:induction false} ChampionIs(history: seq<Reg>, key: Name, mode: Mode) returns (i: nat)
    ensures Champion(history, key, mode).None? ==> forall j :: 0 <= j < |history| ==> history[j].name != key
    ensures Champion(history, key, mode).Some? ==>
              && i < |history| && history[i].name == key && Champion(history, key, mode) == Some(history[i])
              && (if history[i].preferred then
                    forall j :: 0 <= j < i && history[j].name == key ==> !history[j].preferred
                  else Best(history, key, mode, i))
  {
    i := 0;
    if history != [] {
      var n := |history| - 1;
      var r := history[n];
      i := ChampionIs(history[..n], key, mode);
      var c := Champion(history[..n], key, mode);
      if r.name == key && (c.None? || Beats(r, c.value, mode)) { i := n; }
    }
  }

  /** No registration of the name is preferred, and history[i] is the earliest of the newest, or the first. */
  ghost predicate Best(history: seq<Reg>, key: Name, mode: Mode, i: nat)
    requires i < |history|
  {
    forall j :: 0 <= j < |history| && history[j].name == key ==>
      && !history[j].preferred
      && (mode == ByVersion ==>
          history[j].version <= history[i].version && (j < i ==> history[j].version < history[i].version))
      && (mode == ByRegistration ==> i <= j)
  }

  /** The entries a list of nodes stands for. */
  ghost function ListOf(entries: seq<Entry>, order: seq<Ptr>): (list: seq<Entry>)
    requires InRange(order, |entries|)
    ensures |list| == |order| && forall i :: 0 <= i < |order| ==> list[i] == entries[order[i]]
  {
    seq(|order|, i requires 0 <= i < |order| => entries[order[i]])
  }

  /** A new node with entry e, put in at position k. */
  lemma ListInserted(entries: seq<Entry>, order: seq<Ptr>, k: nat, p: Ptr, e: Entry)
    requires InRange(order, |entries|) && k <= |order| && 0 <= p < |entries| && p !in order
    ensures InRange(Inserted(order, k, p), |entries|)
    ensures ListOf(entries[p := e], Inserted(order, k, p)) == Inserted(ListOf(entries, order), k, e)
  {
  }

  lemma ListUpdated(entries: seq<Entry>, order: seq<Ptr>, k: nat, e: Entry)
    requires InRange(order, |entries|) && Distinct(order) && k < |order|
    ensures ListOf(entries[order[k] := e], order) == ListOf(entries, order)[k := e]
  {
  }

  lemma NewLast(next: seq<Ptr>, head: Ptr, order: seq<Ptr>, k: nat, p: Ptr)
    requires Chain(next, head, order) && k <= |order|
    ensures Nth(Inserted(order, k, p), |order|) == if k == |order| then p else Nth(order, |order| - 1)
    ensures k > 0 ==> (order[k - 1] == Nth(order, |order| - 1) <==> k == |order|)
  {
    ChainDistinct(next, head, order);
  }

  /** Another entry for the node at position k. */
  lemma ChainUpdated(next: seq<Ptr>, head: Ptr, entries: seq<Entry>, order: seq<Ptr>, k: nat, e: Entry)
    requires Chain(next, head, order) && |entries| == |next| && k < |order|
    ensures ListOf(entries[order[k] := e], order) == ListOf(entries, order)[k := e]
  {
    ChainDistinct(next, head, order);
    ListUpdated(entries, order, k, e);
  }

  /** What every registration keeps. */
  ghost predicate SoundList(list: seq<Entry>, history: seq<Reg>, named: seq<Name>, mode: Mode, filtered: Reg -> bool) {
    && Grouped(list) && Led(list, history, mode, filtered) && Complete(list, history)
    && Ranked(list, named) && Lined(list, history, mode)
  }

  lemma {:induction false} SoundNext(list: seq<Entry>, history: seq<Reg>, named: seq<Name>, r: Reg, mode: Mode,
                                     filtered: Reg -> bool)
    requires SoundList(list, history, named, mode, filtered)
    ensures SoundList(Registered(list, r, mode, filtered), history + [r], named + [r.name], mode, filtered)
    ensures Grew(list, Registered(list, r, mode, filtered), r)
  {
    LedNext(list, history, r, mode, filtered);
    GroupedNext(list, r, mode, filtered);
    CompleteNext(list, history, r, mode, filtered);
    RankedNext(list, named, r, mode, filtered);
    LinedNext(list, history, r, mode, filtered);
    GrewNext(list, r, mode, filtered);
  }

  lemma {:induction false} SoundPlace(list: seq<Entry>, history: seq<Reg>, named: seq<Name>, mode: Mode,
                                      filtered: Reg -> bool, name: Name)
    requires SoundList(list, history, named, mode, filtered) && forall i :: 0 <= i < |list| ==> list[i].name != name
    ensures SoundList(Inserted(list, |list|, Entry(name, None, false)), history, named + [name], mode, filtered)
  {
    PlaceNext(list, history, mode, filtered, name);
    PlaceOrdered(list, history, mode, named, name);
  }

  class Registry {
    const mode: Mode
    const filtered: Reg -> bool
    var head: Ptr
    var tail: Ptr
    var next: seq<Ptr>
    var entries: seq<Entry>
    ghost var order: seq<Ptr>
    /** The registrations accepted so far. */
    ghost var history: seq<Reg>
    /** The names placed or registered so far. */
    ghost var named: seq<Name>

    ghost predicate Valid()
      reads `head, `tail, `next, `entries, `order
    {
      && |entries| == |next| && Chain(next, head, order) && tail == Nth(order, |order| - 1)
    }

    ghost function List(): (list: seq<Entry>)
      requires Valid()
      reads `head, `tail, `next, `entries, `order
    {
      ListOf(entries, order)
    }

    /** What every registration keeps. */
    ghost predicate Sound()
      requires Valid()
      reads `head, `tail, `next, `entries, `order, `history, `named
    {
      SoundList(List(), history, named, mode, filtered)
    }

    constructor (mode: Mode, filtered: Reg -> bool)
      ensures Valid() && Sound() && List() == [] && history == [] && named == []
      ensures this.mode == mode && this.filtered == filtered
    {
      this.mode, this.filtered := mode, filtered;
      head, tail, next, entries, order, history, named := NULL, NULL, [], [], [], [], [];
    }

    /** `ofi_getprov` */
    method GetProv(name: Name) returns (p: Ptr)
      requires Valid()
      ensures p == Nth(order, Find(List(), name))
    {
      p := head;
      ghost var k := 0;
      while p != NULL && entries[p].name != name
        invariant k <= |order| && p == Nth(order, k) && forall i :: 0 <= i < k ==> List()[i].name != name
        decreases |order| - k
      {
        assert next[order[k]] == Nth(order, k + 1);
        p, k := next[p], k + 1;
      }
      FindIs(List(), name, k);
    }

    /** Link node p in between `prev` and `at`; without a `prev` it becomes the head. */
    method Link(prev: Ptr, p: Ptr, at: Ptr, ghost k: nat)
      requires Chain(next, head, order) && k <= |order| && prev == Nth(order, k - 1) && at == Nth(order, k)
      requires 0 <= p < |next| && p !in order
      modifies `head, `next, `order
      ensures Chain(next, head, order) && |next| == |old(next)| && order == Inserted(old(order), k, p)
    {
      ChainInsert(next, head, order, k, p);
      next := next[p := at];
      if prev != NULL {
        next := next[prev := p];
      } else {
        head := p;
      }
      order := Inserted(order, k, p);
    }

    /** A name not seen before goes to the end. */
    method Append(p: Ptr, e: Entry)
      requires Valid() && 0 <= p < |next| && p !in order
      modifies `head, `tail, `next, `entries, `order
      ensures Valid() && List() == Inserted(old(List()), |old(order)|, e)
    {
      NewLast(next, head, order, |order|, p);
      ListInserted(entries, order, |order|, p, e);
      Link(tail, p, NULL, |order|);
      tail := p;
      entries := entries[p := e];
    }

    /** Before the first entry of its name, which is hidden. */
    method Before(p: Ptr, e: Entry, prev: Ptr, cur: Ptr, ghost k: nat)
      requires Valid() && 0 <= p < |next| && p !in order && k < |order| && prev == Nth(order, k - 1) && cur == order[k]
      modifies `head, `next, `entries, `order
      ensures Valid() && List() == Inserted(old(List())[k := old(List())[k].(hidden := true)], k, e)
    {
      ChainUpdated(next, head, entries, order, k, entries[cur].(hidden := true));
      NewLast(next, head, order, k, p);
      entries := entries[cur := entries[cur].(hidden := true)];
      ListInserted(entries, order, k, p, e);
      Link(prev, p, cur, k);
      entries := entries[p := e];
    }

    /** Right behind the first entry of its name. */
    method After(p: Ptr, e: Entry, cur: Ptr, ghost k: nat)
      requires Valid() && 0 <= p < |next| && p !in order && k < |order| && cur == order[k]
      modifies `head, `tail, `next, `entries, `order
      ensures Valid() && List() == Inserted(old(List()), k + 1, e)
    {
      NewLast(next, head, order, k + 1, p);
      ListInserted(entries, order, k + 1, p, e);
      assert next[order[k]] == Nth(order, k + 1);
      var atTail := tail == cur;
      Link(cur, p, next[cur], k + 1);
      if atTail {
        tail := p;
      }
      entries := entries[p := e];
    }

    /** The search of `ofi_insert_prov`. */
    method Search(name: Name) returns (prev: Ptr, cur: Ptr)
      requires Valid()
      ensures var k := Find(List(), name); prev == Nth(order, k - 1) && cur == Nth(order, k)
    {
      prev, cur := NULL, head;
      ghost var k := 0;
      while cur != NULL && entries[cur].name != name
        invariant k <= |order| && prev == Nth(order, k - 1) && cur == Nth(order, k)
        invariant forall i :: 0 <= i < k ==> List()[i].name != name
        decreases |order| - k
      {
        assert next[order[k]] == Nth(order, k + 1);
        prev, cur, k := cur, next[cur], k + 1;
      }
      FindIs(List(), name, k);
    }

    /** `ofi_insert_prov` of a new node p, hidden if the filter excludes it. */
    method InsertProv(p: Ptr, r: Reg)
      requires Valid() && 0 <= p < |next| && p !in order
      requires var k := Find(List(), r.name); k < |order| ==> List()[k].reg.Some?
      modifies `head, `tail, `next, `entries, `order
      ensures Valid() && List() == Registered(old(List()), r, mode, filtered) && Grew(old(List()), List(), r)
    {
      GrewNext(List(), r, mode, filtered);
      ghost var k := Find(List(), r.name);
      var prev, cur := Search(r.name);
      var e := Entry(r.name, Some(r), filtered(r));
      if cur == NULL {
        Append(p, e);
      } else if Beats(r, entries[cur].reg.value, mode) {
        Before(p, e, prev, cur, k);
      } else {
        After(p, e.(hidden := true), cur, k);
      }
    }

    method Alloc(name: Name) returns (p: Ptr)
      requires Valid()
      modifies `next, `entries
      ensures Valid() && List() == old(List()) && 0 <= p < |next| && p !in order
    {
      p := |next|;
      next, entries := next + [NULL], entries + [Entry(name, None, false)];
    }

    /** One entry of `ofi_ordered_provs_init`: a name that is not listed yet gets a place. */
    method AddPlace(name: Name)
      requires Valid() && Sound() && forall i :: 0 <= i < |order| ==> List()[i].name != name
      modifies `head, `tail, `next, `entries, `order, `named
      ensures Valid() && Sound() && List() == Inserted(old(List()), |old(order)|, Entry(name, None, false))
      ensures named == old(named) + [name]
    {
      SoundPlace(List(), history, named, mode, filtered, name);
      ghost var list' := Inserted(List(), |order|, Entry(name, None, false));
      var p := Alloc(name);
      Append(p, Entry(name, None, false));
      named := named + [name];
      assert List() == list';
    }

    /** A placeholder waits for this name. */
    ghost predicate HasPlace(name: Name)
      requires Valid()
      reads `head, `tail, `next, `entries, `order
    {
      var k := Find(List(), name);
      k < |order| && List()[k].reg.None?
    }

    /** `ofi_register_provider`: unacceptable offers, and one there is no memory for, change nothing. */
    method Register(o: Offer, preferred: bool, oom: bool)
      requires Valid() && Sound()
      modifies `head, `tail, `next, `entries, `order, `history, `named
      ensures Valid() && Sound()
      ensures if Acceptable(o) && (!oom || old(HasPlace(o.name.value))) then
                var r := Reg(o.name.value, o.id, o.version, preferred);
                && history == old(history) + [r] && named == old(named) + [r.name]
                && List() == Registered(old(List()), r, mode, filtered) && Grew(old(List()), List(), r)
              else history == old(history) && List() == old(List()) && named == old(named)
    {
      if !Acceptable(o) {
        return;
      }
      var r := Reg(o.name.value, o.id, o.version, preferred);
      SoundNext(List(), history, named, r, mode, filtered);
      var entered := Enter(r, oom);
      if entered {
        history, named := history + [r], named + [r.name];
      }
    }

    /** An acceptable registration takes a place kept for it, or a new node if there is memory for one. */
    method Enter(r: Reg, oom: bool) returns (entered: bool)
      requires Valid()
      modifies `head, `tail, `next, `entries, `order
      ensures Valid() && entered == (!oom || old(HasPlace(r.name)))
      ensures List() == if entered then Registered(old(List()), r, mode, filtered) else old(List())
    {
      entered := true;
      var p := GetProv(r.name);
      if p != NULL && entries[p].reg.None? {
        Occupy(p, r);
      } else if oom {
        entered := false;
      } else {
        p := Alloc(r.name);
        InsertProv(p, r);
      }
    }

    /** A registration fills the place kept for its name. */
    method Occupy(p: Ptr, r: Reg)
      requires Valid() && p != NULL && p == Nth(order, Find(List(), r.name)) && entries[p].reg.None?
      modifies `entries
      ensures Valid() && List() == Registered(old(List()), r, mode, filtered)
    {
      ghost var k := Find(List(), r.name);
      var e := entries[p].(reg := Some(r), hidden := entries[p].hidden || filtered(r));
      ChainUpdated(next, head, entries, order, k, e);
      entries := entries[p := e];
    }

    /** The provider `fi_fabric` takes for a name: the champion of that name. */
    method Resolve(name: Name) returns (r: Option<Reg>)
      requires Valid() && Sound()
      ensures r == Champion(history, name, mode)
    {
      assert LedBy(List(), name, Champion(history, name, mode), filtered);
      var p := GetProv(name);
      r := if p == NULL then None else entries[p].reg;
    }

    /**
     The walk of `fi_getinfo` over the list. `skip` is what it tests of the provider alone: no getinfo,
     an offload provider, the wrong layer, or too old a version.
     */
    method Collect(hiddenToo: bool, skip: Reg -> bool) returns (regs: seq<Reg>)
      requires Valid()
      ensures regs == Shown(List(), |order|, hiddenToo, skip)
    {
      regs := [];
      var p := head;
      ghost var k, list := 0, List();
      while p != NULL
        invariant k <= |order| && p == Nth(order, k) && regs == Shown(list, k, hiddenToo, skip)
        decreases |order| - k
      {
        assert next[order[k]] == Nth(order, k + 1) && list[k] == entries[p];
        if Asked(entries[p], hiddenToo, skip) {
          regs := regs + [entries[p].reg.value];
        }
        p, k := next[p], k + 1;
      }
    }

    /**
     The providers `fi_getinfo` asks: the champions that are not filtered, one for each name; with the
     flag for hidden ones, every registration as often as it was accepted. Those it skips are left out.
     They are asked in the order in which their names were first placed or registered, and those of one
     name in the order of its lineup.
     */
    method Visible(hiddenToo: bool, skip: Reg -> bool) returns (regs: seq<Reg>)
      requires Valid() && Sound()
      ensures !hiddenToo ==>
                && (forall r :: r in regs <==> Champion(history, r.name, mode) == Some(r) && !filtered(r) && !skip(r))
                && NamesApart(regs)
      ensures hiddenToo ==> forall r :: multiset(regs)[r] == if skip(r) then 0 else multiset(history)[r]
      ensures InRank(regs, named)
      ensures hiddenToo ==> forall key :: Under(regs, key) == Unskipped(Lineup(history, key, mode), skip)
    {
      regs := Collect(hiddenToo, skip);
      ShownInRank(List(), |order|, hiddenToo, skip, named);
      ShownUnder(List(), history, mode, skip);
      if hiddenToo {
        AllShown(List(), history, skip);
      } else {
        ShownAre(List(), history, mode, filtered, skip);
      }
    }
  }

  const FI_VERSION_1_3: nat := 0x10003

  /** A provider structure as handed to the registry, or none. */
  datatype Offer = NoProvider | Offer(name: Option<Name>, id: nat, version: nat, fabric: bool, fiVersion: nat)

  predicate Acceptable(o: Offer) {
    o.Offer? && o.name.Some? && o.fabric && o.fiVersion >= FI_VERSION_1_3
  }

  lemma PlaceNext(list: seq<Entry>, history: seq<Reg>, mode: Mode, filtered: Reg -> bool, name: Name)
    requires Grouped(list) && Led(list, history, mode, filtered) && Complete(list, history)
    requires forall i :: 0 <= i < |list| ==> list[i].name != name
    ensures var list' := Inserted(list, |list|, Entry(name, None, false));
            Grouped(list') && Led(list', history, mode, filtered) && Complete(list', history)
  {
    var list' := Inserted(list, |list|, Entry(name, None, false));
    forall r ensures Occ(list', |list'|, r) == multiset(history)[r] {
      OccInserted(list, |list|, Entry(name, None, false), |list|, r);
    }
    forall i: nat, j: nat | i < j < |list'| ensures PairOk(list', i, j) {
      if j < |list| { assert PairOk(list, i, j); }
    }
    forall key ensures LedBy(list', key, Champion(history, key, mode), filtered) {
      assert LedBy(list, key, Champion(history, key, mode), filtered);
      if key == name {
        FindIs(list, name, |list|);
        FindIs(list', name, |list|);
      } else {
        InsertedKeeps(list, |list|, Entry(name, None, false), key);
      }
    }
  }

  lemma {:induction false} PlaceOrdered(list: seq<Entry>, history: seq<Reg>, mode: Mode, named: seq<Name>, name: Name)
    requires Ranked(list, named) && Lined(list, history, mode)
    requires forall i :: 0 <= i < |list| ==> list[i].name != name
    ensures var list' := Inserted(list, |list|, Entry(name, None, false));
            Ranked(list', named + [name]) && Lined(list', history, mode)
  {
    var e := Entry(name, None, false);
    var list' := Inserted(list, |list|, e);
    FindIs(list, name, |list|);
    RankedInserted(list, named, |list|, e);
    forall key ensures Of(list', key) == Lineup(history, key, mode) {
      assert Of(list, key) == Lineup(history, key, mode);
      assert list' == list + [e];
      OfConcat(list, [e], key);
      OfNone([e], key);
    }
  }

  /** What an entry is, hidden or not. */
  ghost predicate SameRow(a: Entry, b: Entry) {
    a.name == b.name && a.reg == b.reg
  }

  /**
   A registration fills the place kept for its name, or is put in somewhere; all entries there were are still
   there, in the same order, up to being hidden.
   */
  ghost predicate Grew(list: seq<Entry>, list': seq<Entry>, r: Reg) {
    exists k: nat :: GrewAt(list, list', r, k)
  }

  ghost predicate GrewAt(list: seq<Entry>, list': seq<Entry>, r: Reg, k: nat) {
    && k < |list'| && list'[k].name == r.name && list'[k].reg == Some(r)
    && if |list'| == |list| then
         list[k].name == r.name && list[k].reg.None? && forall i :: 0 <= i < |list| && i != k ==> list'[i] == list[i]
       else
         && |list'| == |list| + 1
         && forall i :: 0 <= i < |list| ==> SameRow(list[i], list'[if i < k then i else i + 1])
  }

  lemma {:induction false} GrewNext(list: seq<Entry>, r: Reg, mode: Mode, filtered: Reg -> bool)
    ensures Grew(list, Registered(list, r, mode, filtered), r)
  {
    var k, list' := Find(list, r.name), Registered(list, r, mode, filtered);
    if k == |list| || list[k].reg.None? || Beats(r, list[k].reg.value, mode) {
      assert GrewAt(list, list', r, k);
    } else {
      assert GrewAt(list, list', r, k + 1);
    }
  }

  /** Providers in the order of their names. */
  ghost predicate InRank(regs: seq<Reg>, named: seq<Name>) {
    forall i, j :: 0 <= i <= j < |regs| ==> Rank(named, regs[i].name) <= Rank(named, regs[j].name) < |named|
  }

  /** The registrations of a name, in order. */
  ghost function Under(regs: seq<Reg>, key: Name): (r: seq<Reg>) {
    if regs == [] then []
    else Under(regs[..|regs| - 1], key) + if regs[|regs| - 1].name == key then [regs[|regs| - 1]] else []
  }

  ghost function Unskipped(regs: seq<Reg>, skip: Reg -> bool): (r: seq<Reg>) {
    if regs == [] then []
    else Unskipped(regs[..|regs| - 1], skip) + if skip(regs[|regs| - 1]) then [] else [regs[|regs| - 1]]
  }

  predicate Asked(e: Entry, hiddenToo: bool, skip: Reg -> bool) {
    e.reg.Some? && (!e.hidden || hiddenToo) && !skip(e.reg.value)
  }

  /** The registrations among the first n entries that are asked, in list order. */
  ghost function Shown(list: seq<Entry>, n: nat, hiddenToo: bool, skip: Reg -> bool): (regs: seq<Reg>)
    requires n <= |list|
  {
    if n == 0 then []
    else
      var e := list[n - 1];
      Shown(list, n - 1, hiddenToo, skip) + if Asked(e, hiddenToo, skip) then [e.reg.value] else []
  }

  /** What is shown so far ranks no higher than the last entry gone over. */
  lemma {:induction false} ShownInRank(list: seq<Entry>, n: nat, hiddenToo: bool, skip: Reg -> bool, named: seq<Name>)
    requires Grouped(list) && Ranked(list, named) && n <= |list|
    ensures InRank(Shown(list, n, hiddenToo, skip), named)
    ensures forall r :: r in Shown(list, n, hiddenToo, skip) ==>
              n > 0 && Rank(named, r.name) <= Rank(named, list[n - 1].name)
  {
    if n > 0 {
      ShownInRank(list, n - 1, hiddenToo, skip, named);
      var front, e := Shown(list, n - 1, hiddenToo, skip), list[n - 1];
      assert n > 1 ==> Rank(named, list[n - 2].name) <= Rank(named, e.name);
      assert e.reg.Some? ==> e.reg.value.name == e.name;
      assert Rank(named, e.name) <= Rank(named, e.name) < |named|;
    }
  }

  lemma {:induction false} UnderConcat(a: seq<Reg>, x: Reg, key: Name)
    ensures Under(a + [x], key) == Under(a, key) + if x.name == key then [x] else []
  {
    assert (a + [x])[..|a|] == a;
  }

  lemma {:induction false} UnskippedConcat(a: seq<Reg>, x: Reg, skip: Reg -> bool)
    ensures Unskipped(a + [x], skip) == Unskipped(a, skip) + if skip(x) then [] else [x]
  {
    assert (a + [x])[..|a|] == a;
  }

  lemma {:induction false} ShownUnderTo(list: seq<Entry>, n: nat, skip: Reg -> bool, key: Name)
    requires Grouped(list) && n <= |list|
    ensures Under(Shown(list, n, true, skip), key) == Unskipped(Of(list[..n], key), skip)
  {
    if n > 0 {
      ShownUnderTo(list, n - 1, skip, key);
      var front, e, of := Shown(list, n - 1, true, skip), list[n - 1], Of(list[..n - 1], key);
      assert list[..n][..n - 1] == list[..n - 1];
      assert Of(list[..n], key) == of + One(e, key);
      assert front + [] == front && of + [] == of;
      if e.reg.Some? {
        assert e.reg.value.name == e.name;
        UnderConcat(front, e.reg.value, key);
        UnskippedConcat(of, e.reg.value, skip);
      }
    }
  }

  lemma {:induction false} ShownUnder(list: seq<Entry>, history: seq<Reg>, mode: Mode, skip: Reg -> bool)
    requires Grouped(list) && Lined(list, history, mode)
    ensures forall key :: Under(Shown(list, |list|, true, skip), key) == Unskipped(Lineup(history, key, mode), skip)
  {
    forall key ensures Under(Shown(list, |list|, true, skip), key) == Unskipped(Lineup(history, key, mode), skip) {
      ShownUnderTo(list, |list|, skip, key);
      assert list[..|list|] == list;
      assert Of(list, key) == Lineup(history, key, mode);
    }
  }

  lemma {:induction false} ShownHas(list: seq<Entry>, n: nat, skip: Reg -> bool, r: Reg)
    requires n <= |list|
    ensures r in Shown(list, n, false, skip) <==>
            exists i :: 0 <= i < n && list[i].reg == Some(r) && Asked(list[i], false, skip)
  {
    if n > 0 { ShownHas(list, n - 1, skip, r); }
  }

  /** How often r occurs in a list of registrations. */
  ghost function Number(regs: seq<Reg>, r: Reg): (c: nat) {
    if regs == [] then 0 else Number(regs[..|regs| - 1], r) + if regs[|regs| - 1] == r then 1 else 0
  }

  lemma NumberNext(regs: seq<Reg>, q: Reg, r: Reg)
    ensures Number(regs + [q], r) == Number(regs, r) + if q == r then 1 else 0
  {
    assert (regs + [q])[..|regs|] == regs;
  }

  lemma {:induction false} NumberIs(regs: seq<Reg>, r: Reg)
    ensures Number(regs, r) == multiset(regs)[r]
  {
    if regs != [] {
      var n := |regs| - 1;
      NumberIs(regs[..n], r);
      assert regs == regs[..n] + [regs[n]];
    }
  }

  lemma {:induction false} ShownCount(list: seq<Entry>, n: nat, skip: Reg -> bool, r: Reg)
    requires n <= |list|
    ensures Number(Shown(list, n, true, skip), r) == if skip(r) then 0 else Occ(list, n, r)
  {
    if n > 0 {
      ShownCount(list, n - 1, skip, r);
      var e, front := list[n - 1], Shown(list, n - 1, true, skip);
      if Asked(e, true, skip) { NumberNext(front, e.reg.value, r); } else { assert front + [] == front; }
    }
  }

  lemma AllShown(list: seq<Entry>, history: seq<Reg>, skip: Reg -> bool)
    requires Complete(list, history)
    ensures forall r :: multiset(Shown(list, |list|, true, skip))[r] == if skip(r) then 0 else multiset(history)[r]
  {
    forall r ensures multiset(Shown(list, |list|, true, skip))[r] == if skip(r) then 0 else multiset(history)[r] {
      ShownCount(list, |list|, skip, r);
      NumberIs(Shown(list, |list|, true, skip), r);
    }
  }

  ghost predicate NamesApart(regs: seq<Reg>) {
    forall i, j :: 0 <= i < j < |regs| ==> regs[i].name != regs[j].name
  }

  lemma {:induction false} ShownDistinct(list: seq<Entry>, n: nat, skip: Reg -> bool)
    requires Grouped(list) && n <= |list|
    ensures NamesApart(Shown(list, n, false, skip))
  {
    if n > 0 {
      ShownDistinct(list, n - 1, skip);
      var e, front := list[n - 1], Shown(list, n - 1, false, skip);
      if Asked(e, false, skip) {
        forall r | r in front ensures r.name != e.reg.value.name {
          ShownHas(list, n - 1, skip, r);
          var i: nat :| i < n - 1 && list[i].reg == Some(r) && Asked(list[i], false, skip);
          assert PairOk(list, i, n - 1);
        }
      }
    }
  }

  lemma ShownAre(list: seq<Entry>, history: seq<Reg>, mode: Mode, filtered: Reg -> bool, skip: Reg -> bool)
    requires Grouped(list) && Led(list, history, mode, filtered)
    ensures var regs := Shown(list, |list|, false, skip);
            && (forall r :: r in regs <==> Champion(history, r.name, mode) == Some(r) && !filtered(r) && !skip(r))
            && NamesApart(regs)
  {
    var regs := Shown(list, |list|, false, skip);
    ShownDistinct(list, |list|, skip);
    forall r: Reg ensures r in regs <==> Champion(history, r.name, mode) == Some(r) && !filtered(r) && !skip(r) {
      ShownHas(list, |list|, skip, r);
      assert LedBy(list, r.name, Champion(history, r.name, mode), filtered);
      if r in regs {
        var i: nat :| i < |list| && list[i].reg == Some(r) && Asked(list[i], false, skip);
        forall h: nat | h < i ensures list[h].name != r.name { assert PairOk(list, h, i); }
        FindIs(list, r.name, i);
      }
    }
  }
}
