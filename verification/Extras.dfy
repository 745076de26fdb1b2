/** afl-fuzz's dictionaries: the user's tokens, sorted by length, and those it collects itself. */
module Extras {
  import opened ByteStrings
  import opened Config

  const USE_AUTO_EXTRAS := 50
  const MAX_AUTO_EXTRAS := 500

  datatype Extra = Extra(data: Bytes, hitCnt: nat)

  // ----- sorting

  ghost predicate SortedBy(key: Extra -> int, s: seq<Extra>) {
    forall i, j :: 0 <= i < j < |s| ==> key(s[i]) <= key(s[j])
  }

  /** p says from where in s each element of r comes; every place is used once. */
  ghost predicate Permutes(p: seq<nat>, s: seq<Extra>, r: seq<Extra>) {
    && |p| == |s| == |r|
    && (forall i :: 0 <= i < |p| ==> p[i] < |s| && r[i] == s[p[i]])
    && (forall i, j :: 0 <= i < j < |p| ==> p[i] != p[j])
  }

  function ByLength(e: Extra): int { |e.data| }

  function ByUse(e: Extra): int { 0 - (e.hitCnt as int) }

  /** What qsort promises; any order of equal elements will do. */
  method QSort(key: Extra -> int, s: seq<Extra>) returns (r: seq<Extra>, ghost p: seq<nat>)
    ensures SortedBy(key, r) && Permutes(p, s, r)
  {
    r, p := [], [];
    for n := 0 to |s|
      invariant SortedBy(key, r) && Permutes(p, s[..n], r)
    {
      var k := Place(key, r, s[n]);
      InsertSorts(key, r, s[n], k);
      InsertPermutes(s, n, r, p, k);
      r := r[..k] + [s[n]] + r[k..];
      p := p[..k] + [n] + p[k..];
    }
    assert s[..|s|] == s;
  }

  method Place(key: Extra -> int, r: seq<Extra>, e: Extra) returns (k: nat)
    requires SortedBy(key, r)
    ensures k <= |r| && (k > 0 ==> key(r[k - 1]) <= key(e)) && forall i :: k <= i < |r| ==> key(e) < key(r[i])
  {
    k := |r|;
    while k > 0 && key(r[k - 1]) > key(e)
      invariant 0 <= k <= |r|
      invariant forall i :: k <= i < |r| ==> key(e) < key(r[i])
    {
      k := k - 1;
    }
  }

  lemma InsertSorts(key: Extra -> int, r: seq<Extra>, e: Extra, k: nat)
    requires SortedBy(key, r)
    requires k <= |r| && (k > 0 ==> key(r[k - 1]) <= key(e)) && forall i :: k <= i < |r| ==> key(e) < key(r[i])
    ensures SortedBy(key, r[..k] + [e] + r[k..])
  {
    var r2 := r[..k] + [e] + r[k..];
    forall i, j | 0 <= i < j < |r2| ensures key(r2[i]) <= key(r2[j]) {
      if i < k { assert key(r[i]) <= key(r[k - 1]); }
    }
  }

  lemma InsertPermutes(s: seq<Extra>, n: nat, r: seq<Extra>, p: seq<nat>, k: nat)
    requires n < |s| && Permutes(p, s[..n], r) && k <= n
    ensures Permutes(p[..k] + [n] + p[k..], s[..n + 1], r[..k] + [s[n]] + r[k..])
  {
  }

  // ----- tokens equal up to case

  function Lower(b: Byte): Byte { if 65 <= b <= 90 then b + 32 else b }

  ghost predicate SameNoCase(a: Bytes, b: Bytes) {
    |a| == |b| && forall i :: 0 <= i < |a| ==> SameLetter(a[i], b[i])
  }

  /** The same byte, or a letter from A to Z and its small form. */
  predicate SameLetter(x: Byte, y: Byte) {
    x == y || (65 <= x <= 90 && y == x + 32) || (65 <= y <= 90 && x == y + 32)
  }

  ghost predicate NoneMatches(s: seq<Extra>, mem: Bytes) {
    forall i :: 0 <= i < |s| ==> !SameNoCase(s[i].data, mem)
  }

  ghost predicate AllDiffer(s: seq<Extra>) {
    forall i, j :: 0 <= i < j < |s| ==> !SameNoCase(s[i].data, s[j].data)
  }

  /** memcmp_nocase, on as many bytes as both have. */
  method DifferNoCase(a: Bytes, b: Bytes) returns (differ: bool)
    requires |a| == |b|
    ensures differ <==> !SameNoCase(a, b)
  {
    for i := 0 to |a|
      invariant forall k :: 0 <= k < i ==> SameLetter(a[k], b[k])
    {
      if Lower(a[i]) != Lower(b[i]) { return true; }
    }
    return false;
  }

  /** Look among tokens sorted by length, where only those of the right length are compared. */
  method MatchesSorted(extras: seq<Extra>, mem: Bytes) returns (found: bool)
    requires SortedBy(ByLength, extras)
    ensures found <==> !NoneMatches(extras, mem)
  {
    var i := 0;
    while i < |extras| && |extras[i].data| < |mem|
      invariant 0 <= i <= |extras|
      invariant forall k :: 0 <= k < i ==> !SameNoCase(extras[k].data, mem)
    {
      i := i + 1;
    }
    while i < |extras| && |extras[i].data| == |mem|
      invariant 0 <= i <= |extras|
      invariant forall k :: 0 <= k < i ==> !SameNoCase(extras[k].data, mem)
      invariant forall k :: i <= k < |extras| ==> ByLength(extras[k]) >= |mem|
    {
      var differ := DifferNoCase(extras[i].data, mem);
      if !differ { return true; }
      i := i + 1;
    }
    return false;
  }

  /** Look among tokens in any order. */
  method FindAuto(aExtras: seq<Extra>, mem: Bytes) returns (at: nat)
    ensures at <= |aExtras| && NoneMatches(aExtras[..at], mem)
    ensures at < |aExtras| ==> SameNoCase(aExtras[at].data, mem)
  {
    at := 0;
    while at < |aExtras|
      invariant at <= |aExtras| && NoneMatches(aExtras[..at], mem)
    {
      if |aExtras[at].data| == |mem| {
        var differ := DifferNoCase(aExtras[at].data, mem);
        if !differ { return; }
      }
      assert aExtras[..at + 1] == aExtras[..at] + [aExtras[at]];
      at := at + 1;
    }
  }

  ghost predicate AllSame(mem: Bytes) {
    forall i :: 0 <= i < |mem| ==> mem[i] == mem[0]
  }

  /** The invariant of the two dictionaries. */
  ghost predicate Ok(extras: seq<Extra>, aExtras: seq<Extra>) {
    && SortedBy(ByLength, extras)
    && |aExtras| <= 500
    && SortedBy(ByLength, Top(aExtras))
    && AllDiffer(aExtras) && AllSuitable(aExtras)
  }

  /** A collected token has a fitting length and is no run of one byte. */
  ghost predicate Suitable(data: Bytes) {
    3 <= |data| <= 32 && !AllSame(data)
  }

  ghost predicate AllSuitable(s: seq<Extra>) {
    forall i :: 0 <= i < |s| ==> Suitable(s[i].data)
  }

  /** The collected tokens that match one of the user's. */
  ghost function Clashes(extras: seq<Extra>, aExtras: seq<Extra>): set<Bytes> {
    set i | 0 <= i < |aExtras| && !NoneMatches(extras, aExtras[i].data) :: aExtras[i].data
  }

  /** The tokens used for fuzzing. */
  function Top(aExtras: seq<Extra>): seq<Extra> {
    aExtras[..if |aExtras| < 50 then |aExtras| else 50]
  }

  /** The tokens used are the most used ones. */
  ghost predicate TopUsed(aExtras: seq<Extra>) {
    forall i, j :: 0 <= i < |Top(aExtras)| <= j < |aExtras| ==> aExtras[i].hitCnt >= aExtras[j].hitCnt
  }

  /** The collected tokens before they are sorted: mem at place at, counted once more if it was there. */
  function Recorded(aExtras: seq<Extra>, mem: Bytes, at: nat, known: bool): seq<Extra>
    requires at <= |aExtras| && (known ==> at < |aExtras|)
  {
    if known then aExtras[at := aExtras[at].(hitCnt := aExtras[at].hitCnt + 1)]
    else if at < |aExtras| then aExtras[at := Extra(mem, 0)]
    else aExtras + [Extra(mem, 0)]
  }

  lemma PermuteKeeps(s: seq<Extra>, r: seq<Extra>, p: seq<nat>)
    requires Permutes(p, s, r) && AllDiffer(s) && AllSuitable(s)
    ensures AllDiffer(r) && AllSuitable(r)
  {
    forall i, j | 0 <= i < j < |r| ensures !SameNoCase(r[i].data, r[j].data) {
      assert p[i] != p[j];
      if p[i] < p[j] {
        assert !SameNoCase(s[p[i]].data, s[p[j]].data);
      } else {
        assert !SameNoCase(s[p[j]].data, s[p[i]].data);
      }
    }
  }

  lemma RecordedDiffer(aExtras: seq<Extra>, mem: Bytes, at: nat, known: bool)
    requires AllDiffer(aExtras) && AllSuitable(aExtras) && Suitable(mem)
    requires at <= |aExtras| && (known ==> at < |aExtras|) && (!known ==> NoneMatches(aExtras, mem))
    ensures AllDiffer(Recorded(aExtras, mem, at, known)) && AllSuitable(Recorded(aExtras, mem, at, known))
  {
  }

  // ----- what one addition does

  /** mem was recorded: where it was known, at the end while there is room, or else in the bottom half. */
  ghost predicate IsAddition(was: seq<Extra>, mem: Bytes, r: nat, at: nat, known: bool, p: seq<nat>, now: seq<Extra>) {
    && at <= |was| && (known ==> at < |was| && SameNoCase(was[at].data, mem))
    && (!known ==> NoneMatches(was, mem) && at == if |was| < MAX_AUTO_EXTRAS then |was| else MAX_AUTO_EXTRAS / 2 + r)
    && Permutes(p, Recorded(was, mem, at, known), now)
  }

  /** What recording mem makes of the use counts: a token that is there already, up to case, has
      one use more, a new one has none, and all others keep theirs; only when there are as many
      as there may be does a new token push one out, from the less used half. */
  ghost predicate Counted(was: seq<Extra>, mem: Bytes, now: seq<Extra>) {
    && (forall i :: 0 <= i < |now| ==>
          if !SameNoCase(now[i].data, mem) then now[i] in was
          else if NoneMatches(was, mem) then now[i] == Extra(mem, 0)
          else exists j :: 0 <= j < |was| && was[j].data == now[i].data && now[i].hitCnt == was[j].hitCnt + 1)
    && (exists i :: 0 <= i < |now| && SameNoCase(now[i].data, mem))
    && (forall j :: 0 <= j < |was| && was[j] !in now ==>
          SameNoCase(was[j].data, mem) || (NoneMatches(was, mem) && |was| == 500 && j >= 250))
    && |now| == if NoneMatches(was, mem) && |was| < 500 then |was| + 1 else |was|
  }

  lemma AdditionCounts(was: seq<Extra>, mem: Bytes, r: nat, at: nat, known: bool, p: seq<nat>, now: seq<Extra>)
    requires IsAddition(was, mem, r, at, known, p, now) && AllDiffer(was)
    requires |was| <= MAX_AUTO_EXTRAS && r < (MAX_AUTO_EXTRAS + 1) / 2
    ensures Counted(was, mem, now)
  {
    var s := Recorded(was, mem, at, known);
    forall i | 0 <= i < |now|
      ensures if !SameNoCase(now[i].data, mem) then now[i] in was
              else if NoneMatches(was, mem) then now[i] == Extra(mem, 0)
              else was[at].data == now[i].data && now[i].hitCnt == was[at].hitCnt + 1
    {
      assert now[i] == s[p[i]];
      if p[i] != at {
        assert now[i] == was[p[i]];
        if SameNoCase(now[i].data, mem) && known {
          assert SameNoCase(was[p[i]].data, was[at].data) && SameNoCase(was[at].data, was[p[i]].data);
        }
      }
    }
    var k := PlaceOf(s, now, p, at);
    assert SameNoCase(now[k].data, mem);
    forall j | 0 <= j < |was| && was[j] !in now
      ensures SameNoCase(was[j].data, mem) || (NoneMatches(was, mem) && |was| == 500 && j >= 250)
    {
      if j != at {
        var i := PlaceOf(s, now, p, j);
      }
    }
  }

  /** Everything that is there now was there before, or is the token recorded. */
  lemma AdditionFrom(was: seq<Extra>, mem: Bytes, r: nat, at: nat, known: bool, p: seq<nat>, now: seq<Extra>, i: nat)
    requires IsAddition(was, mem, r, at, known, p, now) && i < |now|
    ensures now[i].data == mem || exists j :: 0 <= j < |was| && was[j].data == now[i].data
  {
    var s := Recorded(was, mem, at, known);
    assert now[i] == s[p[i]];
    if s[p[i]].data != mem { assert was[p[i]].data == now[i].data; }
  }

  /** While there is room, what matched a token before still does, and the new one matches. */
  lemma AdditionMatches(was: seq<Extra>, mem: Bytes, r: nat, at: nat, known: bool, p: seq<nat>, now: seq<Extra>, x: Bytes)
    requires IsAddition(was, mem, r, at, known, p, now) && |was| < MAX_AUTO_EXTRAS
    requires !NoneMatches(was, x) || x == mem
    ensures !NoneMatches(now, x)
  {
    var s := Recorded(was, mem, at, known);
    var j: nat;
    if x == mem {
      j := at;
    } else {
      j :| 0 <= j < |was| && SameNoCase(was[j].data, x);
    }
    assert SameNoCase(s[j].data, x);
    var i := PlaceOf(s, now, p, j);
    assert SameNoCase(now[i].data, x);
  }

  /** A permutation leaves no element out. */
  lemma PlaceOf(s: seq<Extra>, r: seq<Extra>, p: seq<nat>, j: nat) returns (i: nat)
    requires Permutes(p, s, r) && j < |s|
    ensures i < |r| && r[i] == s[j]
  {
    AllPlaces(p, j);
    i :| 0 <= i < |p| && p[i] == j;
  }

  /** n different places below n are all the places below n. */
  lemma AllPlaces(p: seq<nat>, j: nat)
    requires (forall i :: 0 <= i < |p| ==> p[i] < |p|) && j < |p|
    requires forall i, k :: 0 <= i < k < |p| ==> p[i] != p[k]
    ensures j in p
  {
    var used := set i | 0 <= i < |p| :: p[i];
    Distinct(p);
    SameSize(used, Upto(|p|));
    assert j in used;
  }

  function Upto(n: nat): (s: set<nat>)
    ensures |s| == n && forall j :: j in s <==> 0 <= j < n
  {
    if n == 0 then {} else Upto(n - 1) + {n - 1}
  }

  lemma {:induction false} Distinct(p: seq<nat>)
    requires forall i, j :: 0 <= i < j < |p| ==> p[i] != p[j]
    ensures |set i | 0 <= i < |p| :: p[i]| == |p|
  {
    var s := set i | 0 <= i < |p| :: p[i];
    if p != [] {
      var n := |p| - 1;
      var t := set i | 0 <= i < n :: p[..n][i];
      Distinct(p[..n]);
      assert s == t + {p[n]};
    } else {
      assert s == {};
    }
  }

  lemma SameSize(a: set<nat>, b: set<nat>)
    requires a <= b && |a| == |b|
    ensures a == b
  {
    assert |b - a| == 0;
  }

  /** Recording a token that matches none of the user's makes no clash. */
  lemma NoNewClash(extras: seq<Extra>, was: seq<Extra>, mem: Bytes, r: nat, at: nat, known: bool, p: seq<nat>, now: seq<Extra>)
    requires IsAddition(was, mem, r, at, known, p, now) && NoneMatches(extras, mem)
    ensures Clashes(extras, now) <= Clashes(extras, was)
  {
    forall i | 0 <= i < |now| && !NoneMatches(extras, now[i].data) ensures now[i].data in Clashes(extras, was) {
      AdditionFrom(was, mem, r, at, known, p, now, i);
    }
  }

  class Dictionaries {
    var extras: seq<Extra>
    var aExtras: seq<Extra>
    var autoChanged: bool

    ghost predicate Valid()
      reads this
    {
      Ok(extras, aExtras) && TopUsed(aExtras)
    }

    constructor ()
      ensures Valid() && extras == [] && aExtras == [] && !autoChanged
    {
      extras, aExtras, autoChanged := [], [], false;
    }

    /** load_extras, once the tokens are read; without any the program ends.  It never looks
        at the collected tokens. */
    method LoadExtras(tokens: seq<Bytes>) returns (ok: bool)
      requires Valid()
      modifies this
      ensures Valid() && aExtras == old(aExtras) && autoChanged == old(autoChanged)
      ensures ok <==> old(extras) + Unused(tokens) != []
      ensures exists p :: Permutes(p, old(extras) + Unused(tokens), extras)
    {
      ghost var p;
      extras, p := QSort(ByLength, extras + Unused(tokens));
      ok := |extras| > 0;
    }

    /** load_auto, the tokens an earlier session saved.  It runs before the user's tokens are
        read.  Every saved token that maybe_add_auto takes is there afterwards, up to case,
        and nothing else is. */
    method LoadAuto(saved: seq<Bytes>, builtin: Bytes -> bool)
      requires Valid() && extras == [] && aExtras == []
      modifies this
      ensures Valid() && extras == [] && |aExtras| <= USE_AUTO_EXTRAS
      ensures Reloaded(First(saved), builtin, aExtras)
    {
      hide Reloaded, Ok, IsAddition, TopUsed;
      var n := if |saved| < USE_AUTO_EXTRAS then |saved| else USE_AUTO_EXTRAS;
      NothingReloaded(builtin);
      assert saved[..0] == [] && First(saved) == saved[..n];
      for i := 0 to n
        invariant Valid() && extras == [] && |aExtras| <= i
        invariant Reloaded(saved[..i], builtin, aExtras)
      {
        ghost var was := aExtras;
        if MIN_AUTO_EXTRA <= |saved[i]| <= MAX_AUTO_EXTRA {
          MaybeAddAuto(saved[i], builtin, 0);
        }
        ReloadedNext(saved[..i], builtin, was, saved[i], aExtras);
        assert saved[..i + 1] == saved[..i] + [saved[i]];
      }
    }

    /** maybe_add_auto; builtin are the values that other stages try anyway, and r chooses what to evict. */
    method MaybeAddAuto(mem: Bytes, builtin: Bytes -> bool, r: nat)
      requires Valid() && MIN_AUTO_EXTRA <= |mem| <= MAX_AUTO_EXTRA && r < (MAX_AUTO_EXTRAS + 1) / 2
      modifies this
      ensures Valid() && extras == old(extras) && Clashes(extras, aExtras) <= old(Clashes(extras, aExtras))
      ensures !Taken(mem, builtin) || !NoneMatches(extras, mem) ==>
                aExtras == old(aExtras) && autoChanged == old(autoChanged)
      ensures Taken(mem, builtin) && NoneMatches(extras, mem) ==>
                && autoChanged && Counted(old(aExtras), mem, aExtras)
                && exists at, known, p :: IsAddition(old(aExtras), mem, r, at, known, p, aExtras)
    {
      var same := Uniform(mem);
      if same { return; }
      if |mem| == 4 && builtin(mem) { return; }
      var matches := MatchesSorted(extras, mem);
      if matches { return; }
      autoChanged := true;
      Record(mem, r);
    }

    /** The rest of maybe_add_auto, for a token that is taken. */
    method Record(mem: Bytes, r: nat)
      requires Valid() && Suitable(mem) && NoneMatches(extras, mem) && r < (MAX_AUTO_EXTRAS + 1) / 2
      modifies `aExtras
      ensures Valid() && Clashes(extras, aExtras) <= old(Clashes(extras, aExtras))
      ensures Counted(old(aExtras), mem, aExtras)
      ensures exists at, known, p :: IsAddition(old(aExtras), mem, r, at, known, p, aExtras)
    {
      var at := FindAuto(aExtras, mem);
      ghost var known := at < |aExtras|;
      ghost var was := aExtras;
      assert aExtras[..|aExtras|] == aExtras;
      if at < |aExtras| {
        aExtras := aExtras[at := aExtras[at].(hitCnt := aExtras[at].hitCnt + 1)];
      } else if |aExtras| < MAX_AUTO_EXTRAS {
        aExtras := aExtras + [Extra(mem, 0)];
      } else {
        at := MAX_AUTO_EXTRAS / 2 + r;
        aExtras := aExtras[at := Extra(mem, 0)];
      }
      RecordedDiffer(was, mem, at, known);
      ghost var p := SortAuto();
      assert IsAddition(was, mem, r, at, known, p, aExtras);
      NoNewClash(extras, was, mem, r, at, known, p, aExtras);
      AdditionCounts(was, mem, r, at, known, p, aExtras);
    }

    /** Most used first, then the top ones by length. */
    method SortAuto() returns (ghost q: seq<nat>)
      requires SortedBy(ByLength, extras) && |aExtras| <= MAX_AUTO_EXTRAS && AllDiffer(aExtras) && AllSuitable(aExtras)
      modifies `aExtras
      ensures Valid() && Permutes(q, old(aExtras), aExtras)
    {
      ghost var s := aExtras;
      ghost var p, p2;
      var byUse, top;
      byUse, p := QSort(ByUse, aExtras);
      top, p2 := QSort(ByLength, Top(byUse));
      aExtras := top + byUse[|top|..];
      q := SortedTwice(s, byUse, p, top, p2);
      PermuteKeeps(s, aExtras, q);
      assert Top(aExtras) == top;
    }
  }

  function Unused(tokens: seq<Bytes>): seq<Extra> {
    seq(|tokens|, i requires 0 <= i < |tokens| => Extra(tokens[i], 0))
  }

  /** What maybe_add_auto takes while there are no user tokens. */
  ghost predicate Taken(mem: Bytes, builtin: Bytes -> bool) {
    !AllSame(mem) && !(|mem| == 4 && builtin(mem))
  }

  ghost predicate Fits(mem: Bytes) { 3 <= |mem| <= 32 }

  /** The saved tokens that load_auto reads. */
  function First(saved: seq<Bytes>): seq<Bytes> {
    saved[..if |saved| < 50 then |saved| else 50]
  }

  /** The collected tokens are, up to case, the saved ones that are taken. */
  ghost predicate Reloaded(saved: seq<Bytes>, builtin: Bytes -> bool, aExtras: seq<Extra>) {
    && (forall x :: x in saved && Fits(x) && Taken(x, builtin) ==> !NoneMatches(aExtras, x))
    && (forall i :: 0 <= i < |aExtras| ==> FromSaved(saved, builtin, aExtras[i].data))
  }

  ghost predicate FromSaved(saved: seq<Bytes>, builtin: Bytes -> bool, x: Bytes) {
    x in saved && Fits(x) && Taken(x, builtin)
  }

  lemma NothingReloaded(builtin: Bytes -> bool)
    ensures Reloaded([], builtin, [])
  {
  }

  lemma ReloadedNext(saved: seq<Bytes>, builtin: Bytes -> bool, was: seq<Extra>, mem: Bytes, now: seq<Extra>)
    requires |was| <= |saved| < USE_AUTO_EXTRAS && Reloaded(saved, builtin, was)
    requires if Fits(mem) && Taken(mem, builtin) then exists at, known, p :: IsAddition(was, mem, 0, at, known, p, now) else now == was
    ensures |now| <= |saved| + 1 && Reloaded(saved + [mem], builtin, now)
  {
    if Fits(mem) && Taken(mem, builtin) {
      var at, known, p :| IsAddition(was, mem, 0, at, known, p, now);
      ReloadedOneMore(saved, builtin, was, mem, at, known, p, now);
    } else {
      forall i | 0 <= i < |now| ensures FromSaved(saved + [mem], builtin, now[i].data) {
        assert FromSaved(saved, builtin, was[i].data);
      }
    }
  }

  lemma ReloadedOneMore(saved: seq<Bytes>, builtin: Bytes -> bool, was: seq<Extra>, mem: Bytes, at: nat, known: bool, p: seq<nat>, now: seq<Extra>)
    requires |was| <= |saved| < USE_AUTO_EXTRAS && Reloaded(saved, builtin, was)
    requires Fits(mem) && Taken(mem, builtin) && IsAddition(was, mem, 0, at, known, p, now)
    ensures Reloaded(saved + [mem], builtin, now)
  {
    hide IsAddition, NoneMatches;
    forall x | x in saved + [mem] && Fits(x) && Taken(x, builtin) ensures !NoneMatches(now, x) {
      assert x in saved || x == mem;
      AdditionMatches(was, mem, 0, at, known, p, now, x);
    }
    forall i | 0 <= i < |now| ensures FromSaved(saved + [mem], builtin, now[i].data) {
      StillFromSaved(saved, builtin, was, mem, at, known, p, now, i);
    }
  }

  lemma StillFromSaved(saved: seq<Bytes>, builtin: Bytes -> bool, was: seq<Extra>, mem: Bytes, at: nat, known: bool, p: seq<nat>, now: seq<Extra>, i: nat)
    requires Reloaded(saved, builtin, was) && Fits(mem) && Taken(mem, builtin)
    requires IsAddition(was, mem, 0, at, known, p, now) && i < |now|
    ensures FromSaved(saved + [mem], builtin, now[i].data)
  {
    AdditionFrom(was, mem, 0, at, known, p, now, i);
    if now[i].data != mem {
      var j :| 0 <= j < |was| && was[j].data == now[i].data;
      assert FromSaved(saved, builtin, was[j].data);
    }
  }

  /** A saved token that is taken matches one of the user's. */
  ghost predicate SavedMatch(saved: seq<Bytes>, builtin: Bytes -> bool, tokens: seq<Bytes>) {
    exists x, k :: FromSaved(saved, builtin, x) && 0 <= k < |tokens| && SameNoCase(tokens[k], x)
  }

  /** The start of a session, with saved tokens and a dictionary of the user's.  The two
      dictionaries clash exactly if a saved token that is taken matches one of the user's. */
  method SetUp(saved: seq<Bytes>, tokens: seq<Bytes>, builtin: Bytes -> bool) returns (d: Dictionaries, ok: bool)
    ensures fresh(d) && d.Valid() && (ok <==> tokens != [])
    ensures Clashes(d.extras, d.aExtras) != {} <==> SavedMatch(First(saved), builtin, tokens)
  {
    d := new Dictionaries();
    d.LoadAuto(saved, builtin);
    ok := d.LoadExtras(tokens);
    ghost var p :| Permutes(p, [] + Unused(tokens), d.extras);
    assert [] + Unused(tokens) == Unused(tokens);
    ClashesFound(First(saved), builtin, tokens, d.extras, p, d.aExtras);
    ClashesExplained(First(saved), builtin, tokens, d.extras, p, d.aExtras);
  }

  lemma MatchClashes(extras: seq<Extra>, aExtras: seq<Extra>, i: nat, x: Bytes)
    requires i < |extras| && SameNoCase(extras[i].data, x) && !NoneMatches(aExtras, x)
    ensures Clashes(extras, aExtras) != {}
  {
    var j :| 0 <= j < |aExtras| && SameNoCase(aExtras[j].data, x);
    SameTransitive(extras[i].data, x, aExtras[j].data);
    assert aExtras[j].data in Clashes(extras, aExtras);
  }

  lemma SameTransitive(a: Bytes, b: Bytes, c: Bytes)
    requires SameNoCase(a, b) && SameNoCase(c, b)
    ensures SameNoCase(a, c)
  {
  }

  lemma TokenClashes(tokens: seq<Bytes>, extras: seq<Extra>, p: seq<nat>, aExtras: seq<Extra>, k: nat, x: Bytes)
    requires Permutes(p, Unused(tokens), extras) && k < |tokens| && SameNoCase(tokens[k], x) && !NoneMatches(aExtras, x)
    ensures Clashes(extras, aExtras) != {}
  {
    var i := PlaceOf(Unused(tokens), extras, p, k);
    MatchClashes(extras, aExtras, i, x);
  }

  lemma ClashesFound(saved: seq<Bytes>, builtin: Bytes -> bool, tokens: seq<Bytes>, extras: seq<Extra>, p: seq<nat>, aExtras: seq<Extra>)
    requires Reloaded(saved, builtin, aExtras) && Permutes(p, Unused(tokens), extras)
    ensures SavedMatch(saved, builtin, tokens) ==> Clashes(extras, aExtras) != {}
  {
    if SavedMatch(saved, builtin, tokens) {
      var x, k :| FromSaved(saved, builtin, x) && 0 <= k < |tokens| && SameNoCase(tokens[k], x);
      TokenClashes(tokens, extras, p, aExtras, k, x);
    }
  }

  lemma ClashesExplained(saved: seq<Bytes>, builtin: Bytes -> bool, tokens: seq<Bytes>, extras: seq<Extra>, p: seq<nat>, aExtras: seq<Extra>)
    requires Reloaded(saved, builtin, aExtras) && Permutes(p, Unused(tokens), extras)
    ensures Clashes(extras, aExtras) != {} ==> SavedMatch(saved, builtin, tokens)
  {
    if y :| y in Clashes(extras, aExtras) {
      var j :| 0 <= j < |aExtras| && aExtras[j].data == y && !NoneMatches(extras, aExtras[j].data);
      var i :| 0 <= i < |extras| && SameNoCase(extras[i].data, y);
      assert extras[i] == Unused(tokens)[p[i]];
      assert FromSaved(saved, builtin, y) && SameNoCase(tokens[p[i]], y);
    }
  }

  /** So the user's tokens and the collected ones need not differ: a token that was saved
      and is also in the user's dictionary is an instance. */
  lemma SavedTokenClashes(token: Bytes, builtin: Bytes -> bool)
    requires Fits(token) && Taken(token, builtin)
    ensures SavedMatch(First([token]), builtin, [token])
  {
    assert First([token]) == [token] && SameNoCase([token][0], token);
    assert FromSaved([token], builtin, token);
  }

  method Uniform(mem: Bytes) returns (same: bool)
    requires |mem| > 0
    ensures same <==> AllSame(mem)
  {
    for i := 1 to |mem|
      invariant forall k :: 0 <= k < i && k < |mem| ==> mem[k] == mem[0]
    {
      if mem[0] != mem[i] { return false; }
    }
    return true;
  }

  lemma SortedTwice(s: seq<Extra>, byUse: seq<Extra>, p: seq<nat>, top: seq<Extra>, p2: seq<nat>) returns (q: seq<nat>)
    requires Permutes(p, s, byUse) && Permutes(p2, Top(byUse), top) && SortedBy(ByUse, byUse)
    ensures Permutes(q, s, top + byUse[|top|..])
    ensures TopUsed(top + byUse[|top|..])
  {
    var n := |top|;
    var r := top + byUse[n..];
    q := seq(|s|, i requires 0 <= i < |s| => if i < n then p[p2[i]] else p[i]);
    forall i, j | 0 <= i < n <= j < |r| ensures r[i].hitCnt >= r[j].hitCnt {
      assert ByUse(byUse[p2[i]]) <= ByUse(byUse[j]);
    }
  }
}
