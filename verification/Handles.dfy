/** The table of handles, with its list of unused slots and its cache of queried pointers. */
module Handles {
  const END := -1
  const IN_USE := -2
  const NULL: nat := 0

  datatype Errno = EBADF | EINVAL | ECANCELED | ENOMEM

  datatype Result = Ok(h: int) | Err(errno: Errno)

  /** A table of virtual functions; one that lacks a function is refused like a NULL pointer. */
  datatype Vfs = Vfs(id: nat, query: bool, close: bool)

  datatype Handle = Handle(vfs: Vfs, next: int, typ: int, ptr: nat)

  function Used(hs: seq<Handle>): set<int> {
    set i | 0 <= i < |hs| && hs[i].next == IN_USE
  }

  /** Slots that are neither in use nor in the list. */
  function Unreachable(hs: seq<Handle>, free: seq<int>): set<int> {
    set i | 0 <= i < |hs| && hs[i].next != IN_USE && i !in free
  }

  /** The slots of `free` are linked by their indices, in this order and without repetition. */
  ghost predicate Chained(hs: seq<Handle>, free: seq<int>) {
    && (forall i :: 0 <= i < |free| ==> 0 <= free[i] < |hs|)
    && (forall i, j :: 0 <= i < j < |free| ==> free[i] != free[j])
    && (forall i :: 0 <= i < |free| ==> hs[free[i]].next == NextOf(free, i))
  }

  ghost function NextOf(free: seq<int>, i: nat): int {
    if i + 1 < |free| then free[i + 1] else END
  }

  /** A cached pointer is what the query would return. */
  ghost predicate Cached(hs: seq<Handle>, q: (Vfs, int) -> nat) {
    forall i :: 0 <= i < |hs| && hs[i].next == IN_USE && hs[i].ptr != NULL ==> hs[i].ptr == q(hs[i].vfs, hs[i].typ)
  }

  /** The handles in use and the objects behind them. */
  ghost function Owners(hs: seq<Handle>): map<int, Vfs> {
    map i | 0 <= i < |hs| && hs[i].next == IN_USE :: hs[i].vfs
  }

  // ------------------------------------------------------------------ the list of unused slots

  ghost function Upto(n: nat): set<int> {
    if n == 0 then {} else Upto(n - 1) + {n - 1}
  }

  lemma {:induction false} UptoIs(n: nat)
    ensures |Upto(n)| == n && forall i :: i in Upto(n) <==> 0 <= i < n
  {
    if n > 0 { UptoIs(n - 1); }
  }

  /** The slots that are not in use, counted. */
  lemma UnusedCount(hs: seq<Handle>)
    ensures |Used(hs)| + |Unreachable(hs, [])| == |hs|
  {
    UptoIs(|hs|);
    var u, l := Used(hs), Unreachable(hs, []);
    assert Upto(|hs|) == u + l && u !! l;
  }

  /** Everything about the table that operations keep. */
  ghost predicate Sound(hs: seq<Handle>, free: seq<int>, nused: int) {
    Chained(hs, free) && nused == |Used(hs)| && |Unreachable(hs, free)| <= 8
  }

  lemma NeverEmpty(hs: seq<Handle>, free: seq<int>, nused: int)
    requires Sound(hs, free, nused) && |hs| - nused > 8
    ensures free != []
  {
    UnusedCount(hs);
  }

  /** Taking the first slot. */
  lemma Popped(hs: seq<Handle>, free: seq<int>, nused: int, e: Handle)
    requires Sound(hs, free, nused) && free != [] && e.next == IN_USE
    ensures free[0] !in Used(hs) && 0 <= free[0] < |hs|
    ensures Sound(hs[free[0] := e], free[1..], nused + 1)
    ensures Owners(hs[free[0] := e]) == Owners(hs)[free[0] := e.vfs]
    ensures hs[free[0]].next == NextOf(free, 0) == if |free| > 1 then free[1..][0] else END
  {
    var h, rest := free[0], free[1..];
    var now := hs[h := e];
    assert hs[free[0]].next == NextOf(free, 0);
    PoppedChain(hs, free, e);
    PoppedUsed(hs, h, e);
    PoppedRest(hs, free, h, rest, e);
  }

  lemma PoppedUsed(hs: seq<Handle>, h: int, e: Handle)
    requires 0 <= h < |hs| && hs[h].next != IN_USE && e.next == IN_USE
    ensures Used(hs[h := e]) == Used(hs) + {h} && Owners(hs[h := e]) == Owners(hs)[h := e.vfs]
  {
  }

  lemma PoppedRest(hs: seq<Handle>, free: seq<int>, h: int, rest: seq<int>, e: Handle)
    requires 0 <= h < |hs| && free == [h] + rest && e.next == IN_USE
    ensures Unreachable(hs[h := e], rest) == Unreachable(hs, free)
  {
  }

  lemma PoppedChain(hs: seq<Handle>, free: seq<int>, e: Handle)
    requires Chained(hs, free) && free != []
    ensures Chained(hs[free[0] := e], free[1..])
  {
    var rest := free[1..];
    var now := hs[free[0] := e];
    forall i | 0 <= i < |rest| ensures 0 <= rest[i] < |now| && now[rest[i]].next == NextOf(rest, i) {
      assert rest[i] == free[i + 1];
      assert hs[free[i + 1]].next == NextOf(free, i + 1);
    }
  }

  /** The table with slot `h` put behind the last slot of the list. */
  function Return(hs: seq<Handle>, first: int, last: int, h: int): seq<Handle>
    requires 0 <= h < |hs|
  {
    var e := hs[h].(ptr := NULL, next := END);
    if first == END then hs[h := e]
    else if 0 <= last < |hs| then hs[h := e][last := hs[h := e][last].(next := h)]
    else hs[h := e]
  }

  lemma Returned(hs: seq<Handle>, free: seq<int>, nused: int, first: int, last: int, h: int)
    requires Sound(hs, free, nused) && h in Used(hs)
    requires first == (if free == [] then END else free[0]) && (free != [] ==> last == free[|free| - 1])
    ensures Sound(Return(hs, first, last, h), free + [h], nused - 1)
    ensures Owners(Return(hs, first, last, h)) == Owners(hs) - {h}
  {
    var now, list := Return(hs, first, last, h), free + [h];
    forall i | 0 <= i < |free| ensures free[i] != h {
      assert hs[free[i]].next == NextOf(free, i);
    }
    forall i | 0 <= i < |list| ensures 0 <= list[i] < |now| && now[list[i]].next == NextOf(list, i) {
      if i < |free| { assert hs[free[i]].next == NextOf(free, i); }
    }
    assert Used(now) == Used(hs) - {h};
    assert Unreachable(now, list) == Unreachable(hs, free);
  }

  /** The slots `n`, `n + 1`, ... `sz - 1`. */
  ghost function From(n: nat, sz: nat): seq<int>
    requires n <= sz
  {
    seq(sz - n, i requires 0 <= i < sz - n => n + i)
  }

  /** New slots: what is left of the old list is given up. */
  lemma Grown(hs: seq<Handle>, free: seq<int>, nused: int, now: seq<Handle>)
    requires Sound(hs, free, nused) && |hs| - nused <= 8 && |hs| < |now| && hs == now[..|hs|]
    requires forall i :: |hs| <= i < |now| ==> now[i].next == if i == |now| - 1 then END else i + 1
    ensures Sound(now, From(|hs|, |now|), nused) && nused <= |hs|
    ensures Owners(now) == Owners(hs)
  {
    UnusedCount(hs);
    var list := From(|hs|, |now|);
    assert forall i :: 0 <= i < |hs| ==> now[i] == hs[i];
    assert Used(now) == Used(hs);
    assert Unreachable(now, list) == Unreachable(hs, []) by {
      forall i | |hs| <= i < |now| ensures i in list {
        assert list[i - |hs|] == i;
      }
    }
    forall i | 0 <= i < |list| ensures now[list[i]].next == NextOf(list, i) {
    }
  }

  // ------------------------------------------------------------------ the table

  /** The table reallocated, its new slots linked one after another. */
  method Extend(old_: seq<Handle>, sz: nat) returns (hs: seq<Handle>)
    requires sz > |old_|
    ensures |hs| == sz && hs[..|old_|] == old_
    ensures forall i :: |old_| <= i < sz ==> hs[i].next == if i == sz - 1 then END else i + 1
  {
    var n := |old_|;
    hs := old_ + seq(sz - n, _ => Handle(Vfs(0, false, false), END, 0, NULL));
    var i := n;
    while i != sz - 1
      invariant n <= i <= sz - 1 && |hs| == sz && hs[..n] == old_
      invariant forall j :: n <= j < i ==> hs[j].next == j + 1
    {
      hs := hs[i := hs[i].(next := i + 1)];
      i := i + 1;
    }
    hs := hs[sz - 1 := hs[sz - 1].(next := END)];
  }

  lemma FromIs(n: nat, sz: nat)
    requires n < sz
    ensures From(n, sz) != [] && From(n, sz)[0] == n && From(n, sz)[|From(n, sz)| - 1] == sz - 1
  {
  }

  class Table {
    var handles: seq<Handle>
    var nused: int
    var first: int
    var last: int
    /** What the query function of an object answers. */
    const query: (Vfs, int) -> nat
    /** The list of unused slots. */
    ghost var free: seq<int>
    /** The objects whose close function has been called. */
    ghost var closed: seq<Vfs>

    ghost predicate Valid()
      reads this
    {
      && Sound(handles, free, nused) && Cached(handles, query) && (|handles| == 0 || |handles| >= 256)
      && first == (if free == [] then END else free[0]) && (free != [] ==> last == free[|free| - 1])
    }

    constructor (query: (Vfs, int) -> nat)
      ensures Valid() && handles == [] && free == [] && closed == [] && this.query == query
    {
      this.query := query;
      handles, nused, first, last := [], 0, END, END;
      free, closed := [], [];
    }

    /** The check that starts every operation on a handle. */
    predicate InUse(h: int)
      reads this`handles
    {
      0 <= h < |handles| && handles[h].next == IN_USE
    }

    /** The table doubles; slots left in the list are given up. */
    method Grow()
      requires Valid() && |handles| - nused <= 8
      modifies this`handles, this`first, this`last, this`free
      ensures Valid() && Owners(handles) == old(Owners(handles))
      ensures |handles| == (if |old(handles)| == 0 then 256 else 2 * |old(handles)|)
      ensures free == From(|old(handles)|, |handles|) && |handles| - nused > 8
    {
      var n := |handles|;
      var sz := if n != 0 then n * 2 else 256;
      var hs := Extend(handles, sz);
      Grown(handles, free, nused, hs);
      CachedGrown(handles, hs, query);
      FromIs(n, sz);
      first, last, handles, free := n, sz - 1, hs, From(n, sz);
    }

    /** `dill_hmake`. */
    method HMake(vfs: Vfs, cancelled: bool, nomem: bool) returns (r: Result)
      requires Valid()
      modifies this`handles, this`nused, this`first, this`last, this`free
      ensures Valid()
      ensures r == Err(EINVAL) <==> !vfs.query || !vfs.close
      ensures r == Err(ECANCELED) <==> vfs.query && vfs.close && cancelled
      ensures r == Err(ENOMEM) <==> vfs.query && vfs.close && !cancelled && |old(handles)| - old(nused) <= 8 && nomem
      ensures r.Ok? <==> vfs.query && vfs.close && !cancelled && (|old(handles)| - old(nused) <= 8 ==> !nomem)
      ensures r.Err? ==> handles == old(handles) && free == old(free)
      ensures r.Ok? ==> r.h !in old(Owners(handles)) && Owners(handles) == old(Owners(handles))[r.h := vfs]
      ensures r.Ok? && |old(handles)| - old(nused) > 8 ==> |handles| == |old(handles)| && [r.h] + free == old(free)
      ensures r.Ok? && |old(handles)| - old(nused) <= 8 ==>
        |handles| == (if |old(handles)| == 0 then 256 else 2 * |old(handles)|) &&
        [r.h] + free == From(|old(handles)|, |handles|)
      ensures r.Ok? ==> nused == old(nused) + 1
      ensures r.Err? ==> nused == old(nused)
    {
      if !vfs.query || !vfs.close { return Err(EINVAL); }
      if cancelled { return Err(ECANCELED); }
      if |handles| - nused <= 8 {
        if nomem { return Err(ENOMEM); }
        Grow();
      }
      var h := Pop(vfs);
      return Ok(h);
    }

    /** The first slot of the list, which is not empty, is put to use. */
    method Pop(vfs: Vfs) returns (h: int)
      requires Valid() && |handles| - nused > 8
      modifies this`handles, this`nused, this`first, this`last, this`free
      ensures Valid() && nused == old(nused) + 1 && |handles| == |old(handles)|
      ensures [h] + free == old(free) && h !in old(Owners(handles)) && Owners(handles) == old(Owners(handles))[h := vfs]
    {
      NeverEmpty(handles, free, nused);
      h := first;
      ghost var e := Handle(vfs, IN_USE, 0, NULL);
      Popped(handles, free, nused, e);
      first := handles[h].next;
      // The test for an empty list compares a truth value with -1, so `last` stays as it is.
      handles := handles[h := Handle(vfs, IN_USE, 0, NULL)];
      nused := nused + 1;
      free := free[1..];
    }

    /** A slot goes to the end of the list. */
    method PutBack(h: int)
      requires Valid() && InUse(h)
      modifies this`handles, this`nused, this`first, this`last, this`free
      ensures Valid() && nused == old(nused) - 1 && free == old(free) + [h] && |handles| == |old(handles)|
      ensures Owners(handles) == old(Owners(handles)) - {h}
    {
      Returned(handles, free, nused, first, last, h);
      CachedReturned(handles, query, first, last, h);
      handles := handles[h := handles[h].(ptr := NULL, next := END)];
      if first == END {
        first := h;
      } else {
        handles := handles[last := handles[last].(next := h)];
      }
      last := h;
      nused := nused - 1;
      free := free + [h];
    }

    /** `dill_hclose`; the close function leaves the table alone. */
    method HClose(h: int) returns (r: Result)
      requires Valid()
      modifies this`handles, this`nused, this`first, this`last, this`free, this`closed
      ensures Valid()
      ensures h !in old(Owners(handles)) ==>
        r == Err(EBADF) && handles == old(handles) && free == old(free) && closed == old(closed) && nused == old(nused)
      ensures h in old(Owners(handles)) ==>
        && r == Ok(0) && Owners(handles) == old(Owners(handles)) - {h}
        && closed == old(closed) + [old(Owners(handles))[h]]
        && free == old(free) + [h] && nused == old(nused) - 1 && |handles| == |old(handles)|
    {
      if !InUse(h) { return Err(EBADF); }
      closed := closed + [handles[h].vfs];
      PutBack(h);
      return Ok(0);
    }

    /** `dill_hown`: the object gets a new number and the old one becomes invalid; when that fails the
        object is closed. */
    method HOwn(h: int, cancelled: bool, nomem: bool) returns (r: Result)
      requires Valid()
      modifies this`handles, this`nused, this`first, this`last, this`free, this`closed
      ensures Valid()
      ensures h !in old(Owners(handles)) ==>
        r == Err(EBADF) && handles == old(handles) && free == old(free) && closed == old(closed)
      ensures h in old(Owners(handles)) && r.Ok? ==>
        && r.h !in old(Owners(handles)) && closed == old(closed)
        && Owners(handles) == (old(Owners(handles)) - {h})[r.h := old(Owners(handles))[h]]
      ensures h in old(Owners(handles)) && r.Err? ==>
        && closed == old(closed) + [old(Owners(handles))[h]]
        && Owners(handles) == old(Owners(handles)) - {h}
    {
      if !InUse(h) { return Err(EBADF); }
      var vfs := handles[h].vfs;
      ghost var o := Owners(handles);
      r := HMake(vfs, cancelled, nomem);
      OwnersIn(handles, h);
      if r.Err? {
        var rc := HClose(h);
        assert rc == Ok(0);
      } else {
        ghost var c := closed;
        assert c == old(closed);
        PutBack(h);
        Renumbered(o, h, r.h, vfs);
        assert closed == c;
      }
    }

    /** `dill_hquery`: the answer is that of the object, cached or not. */
    method HQuery(h: int, typ: int) returns (ptr: nat)
      requires Valid()
      modifies this`handles
      ensures Valid() && Owners(handles) == old(Owners(handles))
      ensures ptr == if h in old(Owners(handles)) then query(old(Owners(handles))[h], typ) else NULL
    {
      if !InUse(h) { return NULL; }
      if handles[h].ptr != NULL && handles[h].typ == typ { return handles[h].ptr; }
      ptr := query(handles[h].vfs, typ);
      if ptr == NULL { return; }
      Queried(handles, free, nused, query, h, typ);
      handles := handles[h := handles[h].(typ := typ, ptr := ptr)];
    }
  }

  lemma OwnersIn(hs: seq<Handle>, h: int)
    ensures h in Owners(hs) <==> 0 <= h < |hs| && hs[h].next == IN_USE
    ensures h in Owners(hs) ==> Owners(hs)[h] == hs[h].vfs
  {
  }

  lemma Renumbered(o: map<int, Vfs>, h: int, k: int, v: Vfs)
    requires h != k
    ensures o[k := v] - {h} == (o - {h})[k := v]
  {
  }

  lemma CachedGrown(hs: seq<Handle>, now: seq<Handle>, q: (Vfs, int) -> nat)
    requires Cached(hs, q) && |hs| <= |now| && now[..|hs|] == hs &&
      forall i :: |hs| <= i < |now| ==> now[i].next != IN_USE
    ensures Cached(now, q)
  {
    assert forall i :: 0 <= i < |hs| ==> now[i] == hs[i];
  }

  lemma CachedReturned(hs: seq<Handle>, q: (Vfs, int) -> nat, first: int, last: int, h: int)
    requires Cached(hs, q) && 0 <= h < |hs|
    ensures Cached(Return(hs, first, last, h), q)
  {
  }

  /** Filling the cache changes nothing else. */
  lemma Queried(hs: seq<Handle>, free: seq<int>, nused: int, q: (Vfs, int) -> nat, h: int, typ: int)
    requires Sound(hs, free, nused) && Cached(hs, q) && h in Used(hs)
    ensures var now := hs[h := hs[h].(typ := typ, ptr := q(hs[h].vfs, typ))];
      Sound(now, free, nused) && Cached(now, q) && Owners(now) == Owners(hs)
  {
    var now := hs[h := hs[h].(typ := typ, ptr := q(hs[h].vfs, typ))];
    assert Used(now) == Used(hs);
    assert Unreachable(now, free) == Unreachable(hs, free);
    forall i | 0 <= i < |free| ensures now[free[i]].next == NextOf(free, i) {
      assert hs[free[i]].next == NextOf(free, i);
    }
  }

  /** When a closed handle is the next to be given out: the list was empty and the table need not grow. */
  method CloseThenMake(t: Table, h: int, v: Vfs) returns (r: Result)
    requires t.Valid() && t.InUse(h) && v.query && v.close
    modifies t
    ensures t.Valid() && r.Ok?
    ensures r.h == h <==> old(t.first) == END && old(|t.handles| - t.nused) == 8
  {
    OwnersIn(t.handles, h);
    UnusedCount(t.handles);
    InRange(t.handles, t.free, h);
    ghost var free := t.free;
    r := t.HClose(h);
    assert t.free[0] == if free == [] then h else free[0];
    r := t.HMake(v, false, false);
  }

  lemma InRange(hs: seq<Handle>, free: seq<int>, h: int)
    requires Chained(hs, free) && 0 <= h < |hs| && hs[h].next == IN_USE
    ensures h !in free && h !in From(|hs|, 2 * |hs|)
  {
    forall i | 0 <= i < |free| ensures free[i] != h {
      assert hs[free[i]].next == NextOf(free, i);
    }
  }

  /** A handle may be given out again right after it was closed: with as few slots left as the growing
      rule allows and the others given up when the table last grew, the list has no other slot. */
  method Repeated(query: (Vfs, int) -> nat, v: Vfs, w: Vfs) returns (h: int, again: int)
    requires v.query && v.close && w.query && w.close
    ensures h == again
  {
    var t := new Table(query);
    var r := t.HMake(v, false, false);
    for i := 1 to 504
      invariant t.Valid() && fresh(t) && t.nused == i && r.Ok? && r.h in Owners(t.handles)
      invariant i <= 248 ==> |t.handles| == 256
      invariant i > 248 ==> |t.handles| == 512 && |t.free| == 504 - i
    {
      r := t.HMake(v, false, false);
    }
    h := r.h;
    r := t.HClose(h);
    r := t.HMake(w, false, false);
    again := r.h;
  }
}
