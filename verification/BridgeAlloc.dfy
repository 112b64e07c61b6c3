/** Bridge IP allocation: lock, scan the namespace's labels, pick a free octet, create the record,
    release. Any number of threads, with deletes and other creates at any moment. */
module BridgeAlloc {
  import opened Wrappers
  import opened Bytes

  const DOT: Byte := 46
  /** "10.88.1." */
  const SUBNET: seq<Byte> := [49, 48, 46, 56, 56, 46, 49, 46]

  const FIRST_OCTET: nat := 2
  const LAST_OCTET: nat := 254

  predicate Assignable(o: nat) { FIRST_OCTET <= o <= LAST_OCTET }

  function IpOf(octet: nat): seq<Byte> { SUBNET + Decimal(octet) }

  /** One component of a dotted quad: one to three digits, no leading zero, at most 255. */
  function Component(s: seq<Byte>): Option<nat> {
    if 1 <= |s| <= 3 && AllDigits(s) && (|s| == 1 || s[0] != ZERO) && DigitsValue(s) <= 255
    then Some(DigitsValue(s)) else None
  }

  /** Last octet of a well-formed IPv4 address. */
  function ParseOctet(s: seq<Byte>): Option<nat> {
    var i := IndexOf(s, DOT);
    if i == |s| then None else
    var s1 := s[i + 1..];
    var j := IndexOf(s1, DOT);
    if j == |s1| then None else
    var s2 := s1[j + 1..];
    var k := IndexOf(s2, DOT);
    if k == |s2| then None
    else if Component(s[..i]).None? || Component(s1[..j]).None? || Component(s2[..k]).None? then None
    else Component(s2[k + 1..])
  }

  lemma {:induction false} DecimalNoLeadingZero(n: nat)
    requires n >= 1
    ensures Decimal(n)[0] != ZERO
  {
    if n >= 10 { DecimalNoLeadingZero(n / 10); }
  }

  lemma ComponentOfDecimal(n: nat)
    requires n <= 255
    ensures Component(Decimal(n)) == Some(n)
  {
    assert Pow10(3) == 1000;
    DecimalLength(n, 3);
    DigitsValueOfDecimal(n);
    if n >= 1 { DecimalNoLeadingZero(n); }
  }

  lemma DotAfter(front: seq<Byte>, rest: seq<Byte>)
    requires DOT !in front
    ensures IndexOf(front + [DOT] + rest, DOT) == |front|
    ensures (front + [DOT] + rest)[..|front|] == front && (front + [DOT] + rest)[|front| + 1..] == rest
  {
    assert IndexOf(front, DOT) == |front|;
    IndexOfAppend(front, [DOT] + rest, DOT);
    assert front + [DOT] + rest == front + ([DOT] + rest);
  }

  /** The scan reads back exactly the octet the allocation wrote into the label. */
  lemma LabelRoundTrip(octet: nat)
    requires octet <= 255
    ensures ParseOctet(IpOf(octet)) == Some(octet)
  {
    hide Decimal;
    var d := Decimal(octet);
    var a, b, c: seq<Byte> := [49, 48], [56, 56], [49];
    assert SUBNET + d == a + [DOT] + (b + [DOT] + (c + [DOT] + d));
    DotAfter(a, b + [DOT] + (c + [DOT] + d));
    DotAfter(b, c + [DOT] + d);
    DotAfter(c, d);
    ComponentOfDecimal(octet);
    assert Component(a).Some? && Component(b).Some? && Component(c).Some? by { SmallComponents(); }
  }

  lemma SmallComponents()
    ensures Component([49, 48]).Some? && Component([56, 56]).Some? && Component([49]).Some?
  {
    assert Decimal(10) == [49, 48] && Decimal(88) == [56, 56] && Decimal(1) == [49];
    ComponentOfDecimal(10);
    ComponentOfDecimal(88);
    ComponentOfDecimal(1);
  }

  lemma ComponentIff(s: seq<Byte>, n: nat)
    ensures Component(s) == Some(n) <==> n <= 255 && s == Decimal(n)
  {
    if n <= 255 && s == Decimal(n) { ComponentOfDecimal(n); }
    if Component(s) == Some(n) {
      DigitsArePadded(s);
      var z: nat :| s == Zeros(z) + Decimal(n);
      PaddingShows(z, n);
    }
  }

  lemma PaddingShows(z: nat, n: nat)
    ensures var s := Zeros(z) + Decimal(n); |s| >= 1 && (z > 0 ==> |s| > 1 && s[0] == ZERO)
  {
  }

  /** A dotted quad in decimal. */
  function Quad(a: nat, b: nat, c: nat, o: nat): seq<Byte> {
    Decimal(a) + [DOT] + (Decimal(b) + [DOT] + (Decimal(c) + [DOT] + Decimal(o)))
  }

  lemma NoDot(n: nat)
    ensures DOT !in Decimal(n)
  {
  }

  /** The scan takes exactly the well-formed addresses for used, whoever wrote the label: four numbers up to
      255 in plain decimal, of which it keeps the last. */
  lemma ParseOctetIff(s: seq<Byte>, o: nat)
    ensures ParseOctet(s) == Some(o)
       <==> o <= 255 && exists a: nat, b: nat, c: nat :: a <= 255 && b <= 255 && c <= 255 && s == Quad(a, b, c, o)
  {
    hide Decimal, Component, Quad;
    if ParseOctet(s) == Some(o) { OctetIsQuad(s, o); }
    if a: nat, b: nat, c: nat :| o <= 255 && a <= 255 && b <= 255 && c <= 255 && s == Quad(a, b, c, o) {
      QuadParses(a, b, c, o);
    }
  }

  lemma QuadParses(a: nat, b: nat, c: nat, o: nat)
    requires a <= 255 && b <= 255 && c <= 255 && o <= 255
    ensures ParseOctet(Quad(a, b, c, o)) == Some(o)
  {
    hide Decimal, Component;
    var tail := Decimal(c) + [DOT] + Decimal(o);
    NoDot(a);
    NoDot(b);
    NoDot(c);
    DotAfter(Decimal(a), Decimal(b) + [DOT] + tail);
    DotAfter(Decimal(b), tail);
    DotAfter(Decimal(c), Decimal(o));
    ComponentIff(Decimal(a), a);
    ComponentIff(Decimal(b), b);
    ComponentIff(Decimal(c), c);
    ComponentIff(Decimal(o), o);
  }

  lemma OctetIsQuad(s: seq<Byte>, o: nat)
    requires ParseOctet(s) == Some(o)
    ensures o <= 255 && exists a: nat, b: nat, c: nat :: a <= 255 && b <= 255 && c <= 255 && s == Quad(a, b, c, o)
  {
    hide Decimal, Component, IndexOf;
    var i := IndexOf(s, DOT);
    var s1 := s[i + 1..];
    var j := IndexOf(s1, DOT);
    var s2 := s1[j + 1..];
    var k := IndexOf(s2, DOT);
    var a, b, c := Component(s[..i]).value, Component(s1[..j]).value, Component(s2[..k]).value;
    ComponentIff(s[..i], a);
    ComponentIff(s1[..j], b);
    ComponentIff(s2[..k], c);
    ComponentIff(s2[k + 1..], o);
    AtDot(s, i);
    AtDot(s1, j);
    AtDot(s2, k);
    assert s == Quad(a, b, c, o);
  }

  lemma AtDot(s: seq<Byte>, i: nat)
    requires i < |s| && s[i] == DOT
    ensures s == s[..i] + [DOT] + s[i + 1..]
  {
  }

  // ---- picking ----

  /** The assignable octets up to `top` that are free, in order. */
  function FreeUpTo(used: set<nat>, top: nat): (free: seq<nat>)
    ensures forall o :: o in free <==> FIRST_OCTET <= o <= top && o !in used
  {
    if top < FIRST_OCTET then []
    else FreeUpTo(used, top - 1) + if top in used then [] else [top]
  }

  function Free(used: set<nat>): seq<nat> { FreeUpTo(used, LAST_OCTET) }

  /** A random free octet: `choice` stands for the random source, and reaches every free octet. */
  method PickFreeOctet(used: set<nat>, choice: nat) returns (r: Option<nat>)
    ensures r.None? <==> forall o: nat | 2 <= o <= 254 :: o in used
    ensures r.Some? ==> 2 <= r.value <= 254 && r.value !in used
    ensures r.None? <==> Free(used) == []
    ensures choice < |Free(used)| ==> r == Some(Free(used)[choice])
  {
    hide FreeUpTo;
    var free: seq<nat> := [];
    assert free == FreeUpTo(used, FIRST_OCTET - 1) by { NoneYet(used); }
    for o := FIRST_OCTET to LAST_OCTET + 1
      invariant free == FreeUpTo(used, o - 1)
    {
      OneMoreOctet(used, o);
      if o !in used { free := free + [o]; } else { assert free + [] == free; }
    }
    if |free| == 0 {
      assert forall o: nat | Assignable(o) && o !in used :: o in free;
      return None;
    }
    var octet := free[choice % |free|];
    assert octet in free;
    r := Some(octet);
  }

  lemma NoneYet(used: set<nat>)
    ensures FreeUpTo(used, FIRST_OCTET - 1) == []
  {
  }

  lemma OneMoreOctet(used: set<nat>, o: nat)
    requires o >= FIRST_OCTET
    ensures FreeUpTo(used, o) == FreeUpTo(used, o - 1) + if o in used then [] else [o]
  {
  }

  // ---- the protocol ----

  datatype Ref = Ref(ns: string, id: string)

  /** A container record: whether it is on the bridge, and its IP label if it carries one. */
  datatype Rec = Rec(bridge: bool, ip: Option<seq<Byte>>)

  datatype Pc = Idle | Locked(ns: string) | Scanned(ns: string, used: set<nat>) | Picked(ns: string, octet: nat)

  datatype World = World(records: map<Ref, Rec>, lock: Option<nat>, threads: seq<Pc>)

  /** Octets labelled in one namespace. */
  function UsedOctets(records: map<Ref, Rec>, ns: string): set<nat> {
    set r | r in records && r.ns == ns && records[r].ip.Some? && ParseOctet(records[r].ip.value).Some? ::
      ParseOctet(records[r].ip.value).value
  }

  /** `Fail` drops the guard on any error; `CreateOther` is a create that does not use the bridge. */
  datatype Action =
    | Acquire(t: nat, ns: string)
    | Scan(t: nat)
    | Pick(t: nat, octet: nat)
    | Exhausted(t: nat)
    | Create(t: nat, id: string)
    | Fail(t: nat)
    | Delete(ref: Ref)
    | CreateOther(ref: Ref, ip: Option<seq<Byte>>)

  ghost predicate Enabled(w: World, a: Action) {
    match a
    case Acquire(t, _) => t < |w.threads| && w.threads[t].Idle? && w.lock.None?
    case Scan(t) => t < |w.threads| && w.threads[t].Locked?
    case Pick(t, o) => t < |w.threads| && w.threads[t].Scanned? && Assignable(o) && o !in w.threads[t].used
    case Exhausted(t) =>
      t < |w.threads| && w.threads[t].Scanned? && forall o: nat | Assignable(o) :: o in w.threads[t].used
    case Create(t, id) => t < |w.threads| && w.threads[t].Picked? && Ref(w.threads[t].ns, id) !in w.records
    case Fail(t) => t < |w.threads| && !w.threads[t].Idle?
    case Delete(_) => true
    case CreateOther(ref, _) => ref !in w.records
  }

  ghost function Next(w: World, a: Action): World
    requires Enabled(w, a)
  {
    match a
    case Acquire(t, ns) => w.(lock := Some(t), threads := w.threads[t := Locked(ns)])
    case Scan(t) =>
      var ns := w.threads[t].ns;
      w.(threads := w.threads[t := Scanned(ns, UsedOctets(w.records, ns))])
    case Pick(t, o) => w.(threads := w.threads[t := Picked(w.threads[t].ns, o)])
    case Exhausted(t) => w.(lock := None, threads := w.threads[t := Idle])
    case Create(t, id) =>
      var pc := w.threads[t];
      World(w.records[Ref(pc.ns, id) := Rec(true, Some(IpOf(pc.octet)))], None, w.threads[t := Idle])
    case Fail(t) => w.(lock := None, threads := w.threads[t := Idle])
    case Delete(ref) => w.(records := w.records - {ref})
    case CreateOther(ref, ip) => w.(records := w.records[ref := Rec(false, ip)])
  }

  /** The record holds this octet on the bridge of this namespace. */
  predicate Holds(w: World, r: Ref, ns: string, o: nat) {
    r in w.records && r.ns == ns && w.records[r].bridge && w.records[r].ip == Some(IpOf(o))
  }

  /** No two bridge containers of a namespace share an octet, and every octet is assignable. */
  ghost predicate Distinct(w: World) {
    && (forall r | r in w.records && w.records[r].bridge ::
          exists o: nat :: Assignable(o) && Holds(w, r, r.ns, o))
    && (forall r: Ref, q: Ref, o: nat | Assignable(o) && Holds(w, r, r.ns, o) && Holds(w, q, r.ns, o) :: r == q)
  }

  ghost predicate Inv(w: World) {
    && Distinct(w)
    && (forall t | 0 <= t < |w.threads| && !w.threads[t].Idle? :: w.lock == Some(t))
    && (w.lock.Some? ==> w.lock.value < |w.threads| && !w.threads[w.lock.value].Idle?)
    && (forall t, r, o: nat
          | 0 <= t < |w.threads| && w.threads[t].Scanned? && Assignable(o) && Holds(w, r, w.threads[t].ns, o) ::
          o in w.threads[t].used)
    && (forall t | 0 <= t < |w.threads| && w.threads[t].Picked? :: Assignable(w.threads[t].octet))
    && (forall t, r | 0 <= t < |w.threads| && w.threads[t].Picked? ::
          !Holds(w, r, w.threads[t].ns, w.threads[t].octet))
  }

  /** Addresses handed out are 10.88.1.x. */
  lemma IpIsQuad(o: nat)
    ensures IpOf(o) == Quad(10, 88, 1, o)
  {
    assert Decimal(10) == [49, 48] && Decimal(88) == [56, 56] && Decimal(1) == [49];
  }

  lemma HeldIsUsed(w: World, r: Ref, o: nat)
    requires Assignable(o) && Holds(w, r, r.ns, o)
    ensures o in UsedOctets(w.records, r.ns)
  {
    LabelRoundTrip(o);
  }

  lemma IpInjective(a: nat, b: nat)
    requires Assignable(a) && Assignable(b)
    ensures IpOf(a) == IpOf(b) ==> a == b
  {
    LabelRoundTrip(a);
    LabelRoundTrip(b);
  }

  lemma InvScan(w: World, t: nat)
    requires Inv(w) && Enabled(w, Scan(t))
    ensures Inv(Next(w, Scan(t)))
  {
    hide ParseOctet, IpOf, UsedOctets;
    var w' := Next(w, Scan(t));
    forall r, o: nat | Assignable(o) && Holds(w, r, w.threads[t].ns, o) ensures o in w'.threads[t].used {
      HeldIsUsed(w, r, o);
    }
    assert forall r, ns, o: nat :: Holds(w', r, ns, o) == Holds(w, r, ns, o);
    assert Distinct(w');
  }

  lemma InvCreate(w: World, t: nat, id: string)
    requires Inv(w) && Enabled(w, Create(t, id))
    ensures Inv(Next(w, Create(t, id)))
  {
    hide ParseOctet, IpOf, UsedOctets;
    var pc := w.threads[t];
    var created := Ref(pc.ns, id);
    var w' := Next(w, Create(t, id));
    assert Holds(w', created, pc.ns, pc.octet);
    forall r, ns, o: nat | Assignable(o) && Holds(w', r, ns, o)
      ensures if r == created then ns == pc.ns && o == pc.octet else Holds(w, r, ns, o)
    {
      if r == created { IpInjective(o, pc.octet); }
    }
    forall r | r in w'.records && w'.records[r].bridge
      ensures exists o: nat :: Assignable(o) && Holds(w', r, r.ns, o)
    {
      if r != created {
        var o: nat :| Assignable(o) && Holds(w, r, r.ns, o);
        assert Holds(w', r, r.ns, o);
      }
    }
    assert Distinct(w');
    assert forall x | 0 <= x < |w'.threads| :: w'.threads[x].Idle?;
  }

  lemma InvShrink(w: World, ref: Ref)
    requires Inv(w)
    ensures Inv(Next(w, Delete(ref)))
  {
    hide ParseOctet, IpOf, UsedOctets;
    var w' := Next(w, Delete(ref));
    assert forall r, ns, o: nat | Holds(w', r, ns, o) :: Holds(w, r, ns, o);
    forall r | r in w'.records && w'.records[r].bridge
      ensures exists o: nat :: Assignable(o) && Holds(w', r, r.ns, o)
    {
      var o: nat :| Assignable(o) && Holds(w, r, r.ns, o);
      assert Holds(w', r, r.ns, o);
    }
  }

  lemma InvOther(w: World, ref: Ref, ip: Option<seq<Byte>>)
    requires Inv(w) && ref !in w.records
    ensures Inv(Next(w, CreateOther(ref, ip)))
  {
    hide ParseOctet, IpOf, UsedOctets;
    var w' := Next(w, CreateOther(ref, ip));
    assert forall r, ns, o: nat :: Holds(w', r, ns, o) == Holds(w, r, ns, o);
  }

  lemma InvThread(w: World, a: Action)
    requires Inv(w) && Enabled(w, a) && (a.Acquire? || a.Pick? || a.Exhausted? || a.Fail?)
    ensures Inv(Next(w, a))
  {
    hide ParseOctet, IpOf, UsedOctets;
    var w' := Next(w, a);
    assert forall r, ns, o: nat :: Holds(w', r, ns, o) == Holds(w, r, ns, o);
    assert Distinct(w');
  }

  lemma InvStep(w: World, a: Action)
    requires Inv(w) && Enabled(w, a)
    ensures Inv(Next(w, a))
  {
    hide Inv, Next;
    match a
    case Scan(t) => InvScan(w, t);
    case Create(t, id) => InvCreate(w, t, id);
    case Delete(ref) => InvShrink(w, ref);
    case CreateOther(ref, ip) => InvOther(w, ref, ip);
    case Acquire(_, _) => InvThread(w, a);
    case Pick(_, _) => InvThread(w, a);
    case Exhausted(_) => InvThread(w, a);
    case Fail(_) => InvThread(w, a);
  }

  /** A run of one process: no thread is at work at its start, and the records it finds, left by earlier
      processes, hold distinct octets. */
  ghost predicate Run(ws: seq<World>, acts: seq<Action>) {
    && |ws| == |acts| + 1
    && Distinct(ws[0]) && ws[0].lock.None? && (forall t | 0 <= t < |ws[0].threads| :: ws[0].threads[t].Idle?)
    && forall i | 0 <= i < |acts| :: Enabled(ws[i], acts[i]) && ws[i + 1] == Next(ws[i], acts[i])
  }

  lemma {:induction false} RunInv(ws: seq<World>, acts: seq<Action>)
    requires Run(ws, acts)
    ensures Inv(ws[|acts|])
    decreases |acts|
  {
    hide Next, IpOf;
    if |acts| > 0 {
      hide Inv;
      var n := |acts| - 1;
      RunInv(ws[..n + 1], acts[..n]);
      assert Enabled(ws[n], acts[n]) && ws[n + 1] == Next(ws[n], acts[n]);
      InvStep(ws[n], acts[n]);
    }
  }

  /** Over every interleaving, bridge containers of one namespace have pairwise distinct octets in
      2..254, because the guard outlives the create. */
  lemma OctetsDistinct(ws: seq<World>, acts: seq<Action>)
    requires Run(ws, acts)
    ensures var w := ws[|acts|];
            && (forall r | r in w.records && w.records[r].bridge ::
                  exists o: nat :: 2 <= o <= 254 && Holds(w, r, r.ns, o) && w.records[r].ip == Some(Quad(10, 88, 1, o)))
            && (forall r, q | r in w.records && q in w.records && w.records[r].bridge && w.records[q].bridge
                            && r.ns == q.ns && w.records[r].ip == w.records[q].ip :: r == q)
  {
    hide IpOf, Quad;
    RunInv(ws, acts);
    var w := ws[|acts|];
    forall r | r in w.records && w.records[r].bridge
      ensures exists o: nat :: 2 <= o <= 254 && Holds(w, r, r.ns, o) && w.records[r].ip == Some(Quad(10, 88, 1, o))
    {
      var o: nat :| Assignable(o) && Holds(w, r, r.ns, o);
      IpIsQuad(o);
    }
    forall r, q | r in w.records && q in w.records && w.records[r].bridge && w.records[q].bridge
                && r.ns == q.ns && w.records[r].ip == w.records[q].ip
      ensures r == q
    {
      var o: nat :| Assignable(o) && Holds(w, r, r.ns, o);
      assert Holds(w, q, r.ns, o);
    }
  }

  /** The guard is never left behind: in every reachable state the lock is held exactly while some thread is
      between its acquire and its create, failure or exhaustion, and by that thread. */
  lemma LockHeldIff(ws: seq<World>, acts: seq<Action>, t: nat)
    requires Run(ws, acts) && t < |ws[|acts|].threads|
    ensures ws[|acts|].lock == Some(t) <==> !ws[|acts|].threads[t].Idle?
  {
    hide IpOf, Distinct;
    RunInv(ws, acts);
  }

  /** A deleted container's octet can be handed out again, unless another label still carries it. */
  lemma DeleteFrees(w: World, ref: Ref, o: nat)
    requires forall r | r in Labelled(w.records, ref.ns) && r != ref :: LabelOctet(w.records, r) != Some(o)
    ensures o !in UsedOctets(Next(w, Delete(ref)).records, ref.ns)
    ensures forall r | r in w.records && r != ref ::
              r in Next(w, Delete(ref)).records && Next(w, Delete(ref)).records[r] == w.records[r]
  {
    hide ParseOctet, UsedOctets;
    var records := Next(w, Delete(ref)).records;
    UsedOctetsMeaning(records, ref.ns, o);
    assert forall r | r in Labelled(records, ref.ns) ::
        r in Labelled(w.records, ref.ns) && r != ref && LabelOctet(records, r) == LabelOctet(w.records, r);
  }

  // ---- exhaustion ----

  /** The records of one namespace that carry an address label. */
  function Labelled(records: map<Ref, Rec>, ns: string): set<Ref> {
    set r | r in records && r.ns == ns && records[r].ip.Some?
  }

  /** What the allocation does next after its scan: the pick succeeds on exactly the octets a thread may
      take, some choice reaches each of them, and it fails exactly when the thread reports exhaustion. */
  method NextAfterScan(w: World, t: nat, choice: nat) returns (a: Action)
    requires t < |w.threads| && w.threads[t].Scanned?
    ensures Enabled(w, a) && (a == Exhausted(t) || (a.Pick? && a.t == t))
    ensures a == Exhausted(t) <==> Free(w.threads[t].used) == []
    ensures forall o: nat | Enabled(w, Pick(t, o)) :: o in Free(w.threads[t].used)
    ensures choice < |Free(w.threads[t].used)| ==> a == Pick(t, Free(w.threads[t].used)[choice])
  {
    hide FreeUpTo;
    var used := w.threads[t].used;
    var r := PickFreeOctet(used, choice);
    match r {
      case None =>
        a := Exhausted(t);
      case Some(o) =>
        assert o in Free(used);
        a := Pick(t, o);
    }
  }

  lemma {:induction false} ImageIsNoLarger(rs: set<Ref>, records: map<Ref, Rec>, octets: set<nat>)
    requires forall o | o in octets :: exists r :: r in rs && LabelOctet(records, r) == Some(o)
    ensures |octets| <= |rs|
    decreases |rs|
  {
    if octets != {} {
      var o :| o in octets;
      var r :| r in rs && LabelOctet(records, r) == Some(o);
      ImageIsNoLarger(rs - {r}, records, octets - {o});
    }
  }

  /** The octet a record's label stands for, if it has one that parses. */
  function LabelOctet(records: map<Ref, Rec>, r: Ref): Option<nat> {
    if r in records && records[r].ip.Some? then ParseOctet(records[r].ip.value) else None
  }

  lemma UsedOctetsMeaning(records: map<Ref, Rec>, ns: string, o: nat)
    ensures o in UsedOctets(records, ns)
       <==> exists r :: r in Labelled(records, ns) && LabelOctet(records, r) == Some(o)
  {
    hide ParseOctet;
    if o in UsedOctets(records, ns) {
      var r :| r in records && r.ns == ns && records[r].ip.Some? && ParseOctet(records[r].ip.value) == Some(o);
      assert r in Labelled(records, ns) && LabelOctet(records, r) == Some(o);
    }
  }

  lemma {:induction false} RangeSize(lo: nat, hi: nat, s: set<nat>)
    requires lo <= hi && forall o: nat | lo <= o < hi :: o in s
    ensures |s| >= hi - lo
    decreases hi
  {
    if lo < hi { RangeSize(lo, hi - 1, s - {hi - 1}); }
  }

  /** Step `i` is the thread's last scan before step `n`. */
  predicate LastScan(acts: seq<Action>, i: nat, n: nat, t: nat)
    requires i < n <= |acts|
  {
    acts[i] == Scan(t) && forall j | i < j < n :: acts[j] != Scan(t)
  }

  /** A thread between its scan and its pick holds exactly what its last scan found. */
  lemma {:induction false} ScannedEarlier(ws: seq<World>, acts: seq<Action>, n: nat, t: nat)
    requires Run(ws, acts) && n <= |acts| && t < |ws[n].threads| && ws[n].threads[t].Scanned?
    ensures exists i: nat ::
              && i < n && LastScan(acts, i, n, t)
              && ws[n].threads[t].used == UsedOctets(ws[i].records, ws[n].threads[t].ns)
    decreases n
  {
    hide UsedOctets, IpOf;
    var m := n - 1;
    assert n > 0;
    assert Enabled(ws[m], acts[m]) && ws[n] == Next(ws[m], acts[m]);
    if acts[m] == Scan(t) {
      assert LastScan(acts, m, n, t);
    } else {
      assert ws[m].threads[t] == ws[n].threads[t];
      ScannedEarlier(ws, acts, m, t);
      var i: nat :| i < m && LastScan(acts, i, m, t)
                    && ws[m].threads[t].used == UsedOctets(ws[i].records, ws[m].threads[t].ns);
      assert LastScan(acts, i, n, t);
    }
  }

  /** Over every run: a thread that has scanned can report exhaustion if and only if, at its last scan, each of
      2..254 was the label of some record of its namespace; so at least 253 records were labelled. */
  lemma ExhaustedIff(ws: seq<World>, acts: seq<Action>, n: nat, t: nat)
    requires Run(ws, acts) && n <= |acts| && t < |ws[n].threads| && ws[n].threads[t].Scanned?
    ensures exists i: nat ::
              && i < n && LastScan(acts, i, n, t)
              && (Enabled(ws[n], Exhausted(t)) <==> AllTaken(ws[i].records, ws[n].threads[t].ns))
              && (Enabled(ws[n], Exhausted(t)) ==> |Labelled(ws[i].records, ws[n].threads[t].ns)| >= 253)
  {
    hide UsedOctets, LabelOctet, Labelled, Next, LastScan, Distinct;
    ScannedEarlier(ws, acts, n, t);
    var ns, used := ws[n].threads[t].ns, ws[n].threads[t].used;
    var i: nat :| i < n && LastScan(acts, i, n, t) && used == UsedOctets(ws[i].records, ns);
    var records := ws[i].records;
    forall o: nat
      ensures o in used <==> exists r :: r in Labelled(records, ns) && LabelOctet(records, r) == Some(o)
    {
      UsedOctetsMeaning(records, ns, o);
    }
    if Enabled(ws[n], Exhausted(t)) {
      RangeSize(FIRST_OCTET, LAST_OCTET + 1, used);
      ImageIsNoLarger(Labelled(records, ns), records, used);
    }
  }

  /** Every assignable octet is the label of some record of the namespace. */
  ghost predicate AllTaken(records: map<Ref, Rec>, ns: string) {
    forall o: nat | Assignable(o) :: exists r :: r in Labelled(records, ns) && LabelOctet(records, r) == Some(o)
  }

  // ---- across namespaces ----

  /** One undisturbed allocation, step by step. */
  lemma AllocationSteps(w: World, t: nat, ns: string, id: string, o: nat)
    requires t < |w.threads| && w.threads[t].Idle? && w.lock.None? && Ref(ns, id) !in w.records
    requires Assignable(o) && o !in UsedOctets(w.records, ns)
    ensures Enabled(w, Acquire(t, ns))
    ensures var w1 := Next(w, Acquire(t, ns));
            Enabled(w1, Scan(t)) &&
            var w2 := Next(w1, Scan(t));
            Enabled(w2, Pick(t, o)) &&
            var w3 := Next(w2, Pick(t, o));
            Enabled(w3, Create(t, id)) &&
            Next(w3, Create(t, id)) == w.(records := w.records[Ref(ns, id) := Rec(true, Some(IpOf(o)))])
  {
    hide UsedOctets, IpOf;
    var w3 := Next(Next(Next(w, Acquire(t, ns)), Scan(t)), Pick(t, o));
    assert w3.threads[t := Idle] == w.threads;
  }

  /** The same as an extension of a run. */
  lemma AllocationRuns(ws: seq<World>, acts: seq<Action>, t: nat, ns: string, id: string, o: nat)
    requires Run(ws, acts)
    requires var w := ws[|acts|]; t < |w.threads| && w.threads[t].Idle? && w.lock.None? && Ref(ns, id) !in w.records
    requires Assignable(o) && o !in UsedOctets(ws[|acts|].records, ns)
    ensures exists ws': seq<World>, acts': seq<Action> ::
              && Run(ws', acts')
              && ws'[|acts'|] == ws[|acts|].(records := ws[|acts|].records[Ref(ns, id) := Rec(true, Some(IpOf(o)))])
  {
    hide UsedOctets, IpOf, Next, Enabled, Distinct;
    var w := ws[|acts|];
    AllocationSteps(w, t, ns, id, o);
    var a1, a2, a3, a4 := Acquire(t, ns), Scan(t), Pick(t, o), Create(t, id);
    var w1 := Next(w, a1);
    var w2 := Next(w1, a2);
    var w3 := Next(w2, a3);
    RunSnoc(ws, acts, a1);
    RunSnoc(ws + [w1], acts + [a1], a2);
    RunSnoc(ws + [w1] + [w2], acts + [a1] + [a2], a3);
    RunSnoc(ws + [w1] + [w2] + [w3], acts + [a1] + [a2] + [a3], a4);
  }

  lemma RunSnoc(ws: seq<World>, acts: seq<Action>, a: Action)
    requires Run(ws, acts) && Enabled(ws[|acts|], a)
    ensures Run(ws + [Next(ws[|acts|], a)], acts + [a])
  {
    hide Next, Enabled;
  }

  /** The bridge is shared but the scan is per namespace: for any two namespaces and any octet there is a
      run that ends with a bridge container in each, on the same address. */
  lemma NamespacesCollide(ns1: string, ns2: string, id1: string, id2: string, o: nat)
    requires ns1 != ns2 && Assignable(o)
    ensures exists ws: seq<World>, acts: seq<Action> ::
              Run(ws, acts) && Holds(ws[|acts|], Ref(ns1, id1), ns1, o) && Holds(ws[|acts|], Ref(ns2, id2), ns2, o)
  {
    hide IpOf, ParseOctet;
    var w0 := World(map[], None, [Idle]);
    assert Run([w0], []);
    AllocationRuns([w0], [], 0, ns1, id1, o);
    var r1 := Ref(ns1, id1);
    var ws: seq<World>, acts: seq<Action> :| Run(ws, acts)
      && ws[|acts|] == w0.(records := map[r1 := Rec(true, Some(IpOf(o)))]);
    assert UsedOctets(ws[|acts|].records, ns2) == {};
    AllocationRuns(ws, acts, 0, ns2, id2, o);
    var ws': seq<World>, acts': seq<Action> :| Run(ws', acts')
      && ws'[|acts'|] == ws[|acts|].(records := ws[|acts|].records[Ref(ns2, id2) := Rec(true, Some(IpOf(o)))]);
    assert Holds(ws'[|acts'|], r1, ns1, o) && Holds(ws'[|acts'|], Ref(ns2, id2), ns2, o);
  }

  /** No two bridge containers share an address, whatever their namespaces. */
  ghost predicate DistinctEverywhere(w: World) {
    forall r, q | r in w.records && q in w.records && w.records[r].bridge && w.records[q].bridge
                && w.records[r].ip == w.records[q].ip :: r == q
  }

  /** Exactly when a create keeps addresses distinct across namespaces: no bridge container of any
      namespace holds the octet the thread picked. */
  lemma CreateDistinctIff(w: World, t: nat, id: string)
    requires DistinctEverywhere(w) && Enabled(w, Create(t, id))
    ensures DistinctEverywhere(Next(w, Create(t, id)))
       <==> forall r | r in w.records && w.records[r].bridge :: w.records[r].ip != Some(IpOf(w.threads[t].octet))
  {
    hide IpOf;
    var created := Ref(w.threads[t].ns, id);
    var w' := Next(w, Create(t, id));
    if r :| r in w.records && w.records[r].bridge && w.records[r].ip == Some(IpOf(w.threads[t].octet)) {
      assert r != created && r in w'.records && w'.records[r].ip == w'.records[created].ip;
    }
  }

  /** A step that puts an address on the bridge twice: a create on an octet held in some namespace. */
  ghost predicate Doubles(w: World, a: Action) {
    && a.Create? && a.t < |w.threads| && w.threads[a.t].Picked?
    && exists r :: r in w.records && w.records[r].bridge && w.records[r].ip == Some(IpOf(w.threads[a.t].octet))
  }

  lemma StepDistinctIff(w: World, a: Action)
    requires DistinctEverywhere(w) && Enabled(w, a)
    ensures DistinctEverywhere(Next(w, a)) <==> !Doubles(w, a)
  {
    hide IpOf, UsedOctets;
    if a.Create? { CreateDistinctIff(w, a.t, a.id); }
  }

  /** Over every run, addresses are distinct across namespaces throughout if and only if no create took an
      octet that a bridge container of some namespace already held. */
  lemma {:induction false} RunDistinctIff(ws: seq<World>, acts: seq<Action>)
    requires Run(ws, acts) && DistinctEverywhere(ws[0])
    ensures (forall i | 0 <= i <= |acts| :: DistinctEverywhere(ws[i]))
       <==> (forall i | 0 <= i < |acts| :: !Doubles(ws[i], acts[i]))
    decreases |acts|
  {
    hide Next, Enabled, Doubles, DistinctEverywhere, Distinct;
    if |acts| > 0 {
      var n := |acts| - 1;
      RunDistinctIff(ws[..n + 1], acts[..n]);
      assert Enabled(ws[n], acts[n]) && ws[n + 1] == Next(ws[n], acts[n]);
      if DistinctEverywhere(ws[n]) { StepDistinctIff(ws[n], acts[n]); }
    }
  }
}
