/** Receiving into a list without the receive buffer: NULL buffers are skipped, and the result of
    skipping is not looked at. */
module DirectPath {
  import opened Iolists
  import opened Kernel

  /** What became of a list: the lengths that its elements really had, and the bytes not used. */
  datatype Outcome = Outcome(status: Status, served: Iols, left: nat, ev: Script)

  /** The number of leading elements that go into one call. */
  function SegLen(list: Iols): nat {
    if list.Nil? || !IsSolid(list.e) then 0 else 1 + SegLen(list.next)
  }

  /** What becomes of `n` bytes to be skipped or read, when `avail` are still to come. */
  type Reader = (nat, nat, Script) -> Flow

  /** Reading a list: skipping a NULL buffer goes on whatever happens, reading buffers does not. */
  function Read(skip: Reader, pump: Reader, list: Iols, avail: nat, ev: Script): Outcome
    decreases Length(list)
  {
    if list.Nil? then Outcome(Done, Nil, avail, ev)
    else if list.e.len == 0 then First(list.e, Read(skip, pump, list.next, avail, ev))
    else if list.e.Hole? then
      var f := skip(list.e.len, avail, ev);
      First(Hole(Used(avail, f.left)), Read(skip, pump, list.next, f.left, f.ev))
    else
      var k := SegLen(list);
      var f := pump(Total(Take(list, k)), avail, ev);
      if f.status.Failed? then Outcome(f.status, list, f.left, f.ev)
      else
        DropShorter(list, k);
        Behind(Take(list, k), Read(skip, pump, Drop(list, k), f.left, f.ev))
  }

  lemma {:induction false} DropShorter(list: Iols, k: nat)
    ensures Length(Drop(list, k)) <= Length(list) && (list.Cons? && k > 0 ==> Length(Drop(list, k)) < Length(list))
  {
    if k > 0 && list.Cons? { DropShorter(list.next, k - 1); }
  }

  function First(e: Iol, o: Outcome): Outcome {
    o.(served := Cons(e, o.served))
  }

  function Behind(list: Iols, o: Outcome): Outcome {
    o.(served := Append(list, o.served))
  }

  function Used(avail: nat, left: nat): nat {
    if left <= avail then avail - left else 0
  }

  /** The same list but for holes that were dropped in part. */
  ghost predicate Served(list: Iols, served: Iols) {
    if list.Nil? then served.Nil? else served.Cons? && ServedOne(list.e, served.e) && Served(list.next, served.next)
  }

  ghost predicate ServedOne(e: Iol, f: Iol) {
    e == f || (e.Hole? && f.Hole? && f.len <= e.len)
  }

  /** The list has no NULL buffer to skip. */
  predicate Whole(list: Iols) {
    list.Cons? ==> (list.e.Buffer? || list.e.len == 0) && Whole(list.next)
  }

  lemma {:induction false} ServedSelf(a: Iols)
    ensures Served(a, a)
  {
    if a.Cons? { ServedSelf(a.next); }
  }

  lemma {:induction false} ServedAppend(a: Iols, b: Iols, c: Iols, d: Iols)
    requires Served(a, b) && Served(c, d)
    ensures Served(Append(a, c), Append(b, d))
  {
    if a.Cons? { ServedAppend(a.next, b.next, c, d); }
  }

  /** The bytes used are those of the list as it was served. */
  ghost predicate Accounted(list: Iols, avail: nat, o: Outcome) {
    && Served(list, o.served) && o.left <= avail <= o.left + Total(o.served)
    && (o.status.Done? ==> avail == o.left + Total(o.served))
  }

  lemma AccountedBehind(a: Iols, b: Iols, c: Iols, avail: nat, o: Outcome)
    requires Served(a, b) && Accounted(c, avail, o)
    ensures Accounted(Append(a, c), avail + Total(b), Behind(b, o))
  {
    ServedAppend(a, b, c, o.served);
    TotalAppend(b, o.served);
  }

  lemma {:induction false} SegSolid(list: Iols, k: nat)
    requires k <= SegLen(list)
    ensures Solid(Take(list, k)) && Length(Take(list, k)) == k && k <= Length(list)
    ensures SegLen(Drop(list, k)) == SegLen(list) - k
  {
    if k > 0 { SegSolid(list.next, k - 1); }
  }

  lemma ReadHole(skip: Reader, pump: Reader, list: Iols, avail: nat, ev: Script, f: Flow)
    requires list.Cons? && list.e.Hole? && list.e.len > 0 && f == skip(list.e.len, avail, ev)
    ensures Read(skip, pump, list, avail, ev) ==
      First(Hole(Used(avail, f.left)), Read(skip, pump, list.next, f.left, f.ev))
  {
  }

  lemma ReadRun(skip: Reader, pump: Reader, list: Iols, avail: nat, ev: Script, k: nat, f: Flow)
    requires list.Cons? && IsSolid(list.e) && k == SegLen(list) && f == pump(Total(Take(list, k)), avail, ev)
    ensures Read(skip, pump, list, avail, ev) ==
      if f.status.Failed? then Outcome(f.status, list, f.left, f.ev)
      else Behind(Take(list, k), Read(skip, pump, Drop(list, k), f.left, f.ev))
  {
  }

  // ------------------------------------------------------------------ when reading is exact

  /** Every NULL buffer that the run comes to is skipped to its end. */
  ghost predicate AllSkipped(skip: Reader, pump: Reader, list: Iols, avail: nat, ev: Script)
    decreases Length(list)
  {
    if list.Nil? then true
    else if list.e.len == 0 then AllSkipped(skip, pump, list.next, avail, ev)
    else if list.e.Hole? then
      var f := skip(list.e.len, avail, ev);
      f.status.Done? && AllSkipped(skip, pump, list.next, f.left, f.ev)
    else
      var k := SegLen(list);
      var f := pump(Total(Take(list, k)), avail, ev);
      DropShorter(list, k);
      f.status.Done? ==> AllSkipped(skip, pump, Drop(list, k), f.left, f.ev)
  }

  /** No more bytes than asked for and than there are, and fewer than asked for exactly on failure. */
  ghost predicate Fair(r: Reader) {
    forall n: nat, avail: nat, ev :: n > 0 ==> FairOn(n, avail, r(n, avail, ev))
  }

  ghost predicate FairOn(n: nat, avail: nat, f: Flow) {
    f.left <= avail <= f.left + n && (f.status.Done? <==> avail == f.left + n)
  }

  /** What is known of a run: the bytes are accounted for, and the list was served as it is if and only
      if everything was skipped. */
  ghost predicate Told(skip: Reader, pump: Reader, list: Iols, avail: nat, ev: Script) {
    var o := Read(skip, pump, list, avail, ev);
    Accounted(list, avail, o) && (o.served == list <==> AllSkipped(skip, pump, list, avail, ev))
  }

  lemma {:induction false} ReadTold(skip: Reader, pump: Reader, list: Iols, avail: nat, ev: Script)
    requires Fair(skip) && Fair(pump)
    ensures Told(skip, pump, list, avail, ev)
    decreases Length(list)
  {
    if list.Nil? {
    } else if list.e.len == 0 {
      ReadTold(skip, pump, list.next, avail, ev);
    } else if list.e.Hole? {
      var f := skip(list.e.len, avail, ev);
      ReadTold(skip, pump, list.next, f.left, f.ev);
      HoleTold(skip, pump, list, avail, ev, f);
    } else {
      var k := SegLen(list);
      var f := pump(Total(Take(list, k)), avail, ev);
      TakeDrop(list, k);
      DropShorter(list, k);
      if f.status.Done? {
        ReadTold(skip, pump, Drop(list, k), f.left, f.ev);
        SegmentTold(skip, pump, list, avail, ev, k, f);
      } else {
        BrokenTold(skip, pump, list, avail, ev, k, f);
      }
    }
  }

  lemma HoleTold(skip: Reader, pump: Reader, list: Iols, avail: nat, ev: Script, f: Flow)
    requires Fair(skip) && list.Cons? && list.e.Hole? && list.e.len > 0 && f == skip(list.e.len, avail, ev)
    requires Told(skip, pump, list.next, f.left, f.ev)
    ensures Told(skip, pump, list, avail, ev)
  {
    ReadHole(skip, pump, list, avail, ev, f);
  }

  lemma BrokenTold(skip: Reader, pump: Reader, list: Iols, avail: nat, ev: Script, k: nat, f: Flow)
    requires Fair(pump) && list.Cons? && IsSolid(list.e) && k == SegLen(list) &&
      f == pump(Total(Take(list, k)), avail, ev)
    requires f.status.Failed? && Total(list) == Total(Take(list, k)) + Total(Drop(list, k))
    ensures Told(skip, pump, list, avail, ev)
  {
    ReadRun(skip, pump, list, avail, ev, k, f);
    ServedSelf(list);
  }

  lemma SegmentTold(skip: Reader, pump: Reader, list: Iols, avail: nat, ev: Script, k: nat, f: Flow)
    requires Fair(pump) && list.Cons? && IsSolid(list.e) && k == SegLen(list) &&
      f == pump(Total(Take(list, k)), avail, ev)
    requires f.status.Done? && Told(skip, pump, Drop(list, k), f.left, f.ev)
    ensures Told(skip, pump, list, avail, ev)
  {
    var o := Read(skip, pump, Drop(list, k), f.left, f.ev);
    ReadRun(skip, pump, list, avail, ev, k, f);
    TakeDrop(list, k);
    ServedSelf(Take(list, k));
    AccountedBehind(Take(list, k), Take(list, k), Drop(list, k), f.left, o);
    AppendSame(Take(list, k), o.served, Drop(list, k));
    RunSkipped(skip, pump, list, avail, ev, k, f);
  }

  lemma RunSkipped(skip: Reader, pump: Reader, list: Iols, avail: nat, ev: Script, k: nat, f: Flow)
    requires list.Cons? && IsSolid(list.e) && k == SegLen(list) && f == pump(Total(Take(list, k)), avail, ev) &&
      f.status.Done?
    ensures AllSkipped(skip, pump, list, avail, ev) <==> AllSkipped(skip, pump, Drop(list, k), f.left, f.ev)
  {
  }

  lemma {:induction false} AppendSame(a: Iols, b: Iols, c: Iols)
    ensures Append(a, b) == Append(a, c) <==> b == c
  {
    if a.Cons? { AppendSame(a.next, b, c); }
  }

  /** A reader that succeeds whenever there are enough bytes and the script is long enough for `all`. */
  ghost predicate PromptAt(r: Reader, n: nat, avail: nat, ev: Script, all: nat) {
    0 < n <= avail && n <= all && Ample(ev, all) ==>
      var f := r(n, avail, ev);
      f.status.Done? && avail == f.left + n && Ample(f.ev, all - n)
  }

  ghost predicate Prompt(r: Reader) {
    forall n: nat, avail: nat, ev, all: nat :: PromptAt(r, n, avail, ev, all)
  }

  /** On a script without failures that is long enough, a list is read completely and exactly. */
  lemma {:induction false} ReadSucceeds(skip: Reader, pump: Reader, list: Iols, avail: nat, ev: Script)
    requires Prompt(skip) && Prompt(pump) && Total(list) <= avail && Ample(ev, Total(list))
    ensures Complete(list, avail, Read(skip, pump, list, avail, ev))
    decreases Length(list)
  {
    if list.Nil? {
    } else if list.e.len == 0 {
      ReadSucceeds(skip, pump, list.next, avail, ev);
    } else if list.e.Hole? {
      var f := skip(list.e.len, avail, ev);
      assert PromptAt(skip, list.e.len, avail, ev, Total(list));
      ReadSucceeds(skip, pump, list.next, f.left, f.ev);
      ReadHole(skip, pump, list, avail, ev, f);
    } else {
      var k := SegLen(list);
      var f := pump(Total(Take(list, k)), avail, ev);
      TakeDrop(list, k);
      DropShorter(list, k);
      assert PromptAt(pump, Total(Take(list, k)), avail, ev, Total(list));
      ReadSucceeds(skip, pump, Drop(list, k), f.left, f.ev);
      ReadRun(skip, pump, list, avail, ev, k, f);
    }
  }

  ghost predicate Complete(list: Iols, avail: nat, o: Outcome) {
    o.status.Done? && o.served == list && avail == o.left + Total(list)
  }

  /** A list without NULL buffers to skip is always read exactly. */
  lemma {:induction false} WholeSkipped(skip: Reader, pump: Reader, list: Iols, avail: nat, ev: Script)
    requires Whole(list)
    ensures AllSkipped(skip, pump, list, avail, ev)
    decreases Length(list)
  {
    if list.Nil? {
    } else if list.e.len == 0 {
      WholeSkipped(skip, pump, list.next, avail, ev);
    } else {
      var k := SegLen(list);
      var f := pump(Total(Take(list, k)), avail, ev);
      DropShorter(list, k);
      WholeDrop(list, k);
      WholeSkipped(skip, pump, Drop(list, k), f.left, f.ev);
    }
  }

  lemma {:induction false} WholeDrop(list: Iols, k: nat)
    requires Whole(list)
    ensures Whole(Drop(list, k))
  {
    if k > 0 && list.Cons? { WholeDrop(list.next, k - 1); }
  }

  // ------------------------------------------------------------------ a script that spoils a list

  /** A script on which every dropping of a hole fails and everything else succeeds at once. */
  function Spoiling(list: Iols): Script
    decreases Length(list)
  {
    if list.Nil? then End
    else if list.e.len == 0 then Spoiling(list.next)
    else if list.e.Hole? then Then(Fail(ECONNRESET), Spoiling(list.next))
    else
      DropShorter(list, SegLen(list));
      Then(Ready(Total(list)), Spoiling(Drop(list, SegLen(list))))
  }

  /** The list with all its holes shut. */
  function Emptied(list: Iols): Iols {
    if list.Nil? then Nil else Cons(if list.e.Hole? then Hole(0) else list.e, Emptied(list.next))
  }

  lemma {:induction false} EmptiedSeg(list: Iols, k: nat)
    requires k <= SegLen(list)
    ensures Emptied(list) == Append(Take(list, k), Emptied(Drop(list, k)))
  {
    if k > 0 { EmptiedSeg(list.next, k - 1); }
  }

  lemma {:induction false} EmptiedLess(list: Iols)
    ensures Total(Emptied(list)) <= Total(list) && (Total(Emptied(list)) == Total(list) <==> Whole(list))
  {
    if list.Cons? { EmptiedLess(list.next); }
  }

  /** Skipping and reading as they are on the first event of a script. */
  ghost predicate Breaks(skip: Reader) {
    forall n: nat, avail: nat, rest :: n > 0 ==>
      skip(n, avail, Then(Fail(ECONNRESET), rest)) == Flow(Failed(ECONNRESET), avail, rest)
  }

  ghost predicate AtOnce(pump: Reader) {
    forall n: nat, avail: nat, k, rest :: 0 < n <= avail && n <= k ==>
      pump(n, avail, Then(Ready(k), rest)) == Flow(Done, avail - n, rest)
  }

  /** On that script reading succeeds, with nothing skipped. */
  lemma {:induction false} SpoiledRun(skip: Reader, pump: Reader, list: Iols, avail: nat)
    requires Breaks(skip) && AtOnce(pump) && avail >= Total(list)
    ensures Spoiled(list, avail, Read(skip, pump, list, avail, Spoiling(list)))
    decreases Length(list)
  {
    if list.Nil? {
    } else if list.e.len == 0 {
      SpoiledRun(skip, pump, list.next, avail);
    } else if list.e.Hole? {
      SpoiledRun(skip, pump, list.next, avail);
      SpoiledHole(skip, pump, list, avail, Spoiling(list.next));
    } else {
      SpoiledSegment(skip, pump, list, avail, SegLen(list));
    }
  }

  lemma SpoiledHole(skip: Reader, pump: Reader, list: Iols, avail: nat, rest: Script)
    requires Breaks(skip) && list.Cons? && list.e.Hole? && list.e.len > 0
    requires Spoiled(list.next, avail, Read(skip, pump, list.next, avail, rest))
    ensures Spoiled(list, avail, Read(skip, pump, list, avail, Then(Fail(ECONNRESET), rest)))
  {
    ReadHole(skip, pump, list, avail, Then(Fail(ECONNRESET), rest), Flow(Failed(ECONNRESET), avail, rest));
  }

  lemma SpoiledSegment(skip: Reader, pump: Reader, list: Iols, avail: nat, k: nat)
    requires Breaks(skip) && AtOnce(pump) && avail >= Total(list) && list.Cons? && IsSolid(list.e) && k == SegLen(list)
    ensures Spoiled(list, avail, Read(skip, pump, list, avail, Spoiling(list)))
    decreases Length(list), 0
  {
    TakeDrop(list, k);
    DropShorter(list, k);
    var rest, n := Spoiling(Drop(list, k)), Total(Take(list, k));
    ReadRun(skip, pump, list, avail, Then(Ready(Total(list)), rest), k, Flow(Done, avail - n, rest));
    SpoiledRun(skip, pump, Drop(list, k), avail - n);
    EmptiedSeg(list, k);
    TotalAppend(Take(list, k), Emptied(Drop(list, k)));
  }

  ghost predicate Spoiled(list: Iols, avail: nat, o: Outcome) {
    o.status == Done && o.served == Emptied(list) && avail == o.left + Total(Emptied(list))
  }

  // ------------------------------------------------------------------ the source's own calls

  function Skipper(): Reader {
    (n: nat, avail: nat, ev: Script) => SkipFlow(n, avail, ev)
  }

  function Pumper(): Reader {
    (n: nat, avail: nat, ev: Script) => Pump(n, avail, ev)
  }

  lemma SourceFair()
    ensures Fair(Skipper()) && Fair(Pumper())
  {
    forall n: nat, avail: nat, ev | n > 0
      ensures FairOn(n, avail, Skipper()(n, avail, ev)) && FairOn(n, avail, Pumper()(n, avail, ev))
    {
      SkipFailsShort(n, avail, ev, SkipFlow(n, avail, ev));
      PumpShrinks(n, avail, ev, Pump(n, avail, ev));
    }
  }

  lemma SourcePrompt()
    ensures Prompt(Skipper()) && Prompt(Pumper())
  {
    forall n: nat, avail: nat, ev, all: nat
      ensures PromptAt(Skipper(), n, avail, ev, all) && PromptAt(Pumper(), n, avail, ev, all)
    {
      if 0 < n <= avail && n <= all && Ample(ev, all) {
        SkipSucceeds(n, avail, ev, all, SkipFlow(n, avail, ev));
        PumpSucceeds(n, avail, ev, all, Pump(n, avail, ev));
      }
    }
  }

  lemma SourceSpoils()
    ensures Breaks(Skipper()) && AtOnce(Pumper())
  {
    forall n: nat, avail: nat, rest | n > 0
      ensures SkipFlow(n, avail, Then(Fail(ECONNRESET), rest)) == Flow(Failed(ECONNRESET), avail, rest)
    {
      var ev := Then(Fail(ECONNRESET), rest);
      PumpBroken(Part(n), avail, ev);
      SkipBroken(n, avail, ev, Pump(Part(n), avail, ev));
    }
    forall n: nat, avail: nat, k, rest | 0 < n <= avail && n <= k
      ensures Pump(n, avail, Then(Ready(k), rest)) == Flow(Done, avail - n, rest)
    {
      PumpAll(n, avail, Then(Ready(k), rest));
    }
  }

  /** What the direct path of `dill_fd_recv` makes of a list. */
  function Direct(list: Iols, avail: nat, ev: Script): Outcome {
    Read(Skipper(), Pumper(), list, avail, ev)
  }

  /** Every NULL buffer of the list that the run comes to is skipped to its end. */
  ghost predicate SkipsDone(list: Iols, avail: nat, ev: Script) {
    AllSkipped(Skipper(), Pumper(), list, avail, ev)
  }

  /** A run uses the bytes of the list as it was served, no more than there are, and serves the list as
      it is if and only if it skipped every NULL buffer to its end. */
  lemma DirectServes(list: Iols, avail: nat, ev: Script)
    ensures var o := Direct(list, avail, ev);
      && Served(list, o.served) && o.left <= avail <= o.left + Total(o.served)
      && (o.status.Done? ==> avail == o.left + Total(o.served))
      && (o.served == list <==> SkipsDone(list, avail, ev))
  {
    SourceFair();
    ReadTold(Skipper(), Pumper(), list, avail, ev);
  }

  /** A run on a script without failures that is long enough is exact. */
  lemma DirectSucceeds(list: Iols, avail: nat, ev: Script)
    requires Total(list) <= avail && Ample(ev, Total(list))
    ensures Complete(list, avail, Direct(list, avail, ev))
    ensures SkipsDone(list, avail, ev)
  {
    SourcePrompt();
    ReadSucceeds(Skipper(), Pumper(), list, avail, ev);
    DirectServes(list, avail, ev);
  }

  lemma WholeSkips(list: Iols, avail: nat, ev: Script)
    requires Whole(list)
    ensures SkipsDone(list, avail, ev)
  {
    WholeSkipped(Skipper(), Pumper(), list, avail, ev);
  }

  /** A run that succeeds has used exactly the bytes the list asks for, and put them where it says. */
  ghost predicate ExactOn(list: Iols, avail: nat, ev: Script) {
    var o := Direct(list, avail, ev);
    o.status.Done? ==> o.served == list && avail == o.left + Total(list)
  }

  /** Reading directly is exact on every script if and only if the list has no hole to skip. */
  lemma ExactIffWhole(list: Iols, avail: nat)
    requires avail >= Total(list)
    ensures Whole(list) <==> forall ev :: ExactOn(list, avail, ev)
  {
    if Whole(list) {
      forall ev ensures ExactOn(list, avail, ev) {
        DirectServes(list, avail, ev);
        WholeSkips(list, avail, ev);
      }
    } else {
      SourceSpoils();
      SpoiledRun(Skipper(), Pumper(), list, avail);
      EmptiedLess(list);
      assert !ExactOn(list, avail, Spoiling(list));
    }
  }

  // ------------------------------------------------------------------ one element or run at a time

  lemma DirectEmpty(list: Iols, avail: nat, ev: Script)
    requires list.Cons? && list.e.len == 0
    ensures Direct(list, avail, ev) == First(list.e, Direct(list.next, avail, ev))
  {
  }

  lemma DirectHole(list: Iols, avail: nat, ev: Script, f: Flow)
    requires list.Cons? && list.e.Hole? && list.e.len > 0 && f == SkipFlow(list.e.len, avail, ev)
    ensures Direct(list, avail, ev) == First(Hole(avail - f.left), Direct(list.next, f.left, f.ev))
  {
    ReadHole(Skipper(), Pumper(), list, avail, ev, f);
  }

  /** A run of buffers is read with one call. */
  lemma DirectRun(list: Iols, avail: nat, ev: Script, k: nat, f: Flow)
    requires list.Cons? && IsSolid(list.e) && k == SegLen(list) && f == Pump(Total(Take(list, k)), avail, ev)
    ensures Direct(list, avail, ev) ==
      if f.status.Failed? then Outcome(f.status, list, f.left, f.ev)
      else Behind(Take(list, k), Direct(Drop(list, k), f.left, f.ev))
  {
    ReadRun(Skipper(), Pumper(), list, avail, ev, k, f);
  }
}
