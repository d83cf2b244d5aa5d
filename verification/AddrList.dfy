/**
 * The service part of getaddrinfo: ga_port walks the linked list of addresses, fills in socket
 * types and ports, and inserts a clone behind an address that already has a type.
 * Source: unpv13e/libgai/ga_port.c, ga_clone.c, ga_serv.c.
 */
module AddrList {
  import opened Counting

  datatype Family = Inet | Inet6 | Local

  /** One addrinfo structure with its socket address, as a value. */
  datatype Entry = Entry(clone: bool, family: Family, socktype: int, ip: seq<int>, port: int)

  // ----- ga_port on lists of entries -----

  /** What becomes of one entry: it is skipped, filled in, or followed by a filled-in clone. */
  function PortOne(e: Entry, port: int, socktype: int): seq<Entry>
  {
    if e.clone && e.socktype != 0 then [e, Filled(e.(clone := false), port, socktype)]
    else if !e.clone && e.socktype != socktype then [e]
    else [Filled(e, port, socktype)]
  }

  function Filled(e: Entry, port: int, socktype: int): Entry
  {
    if e.family.Local? then e.(socktype := socktype) else e.(socktype := socktype, port := port)
  }

  function PortAll(es: seq<Entry>, port: int, socktype: int): seq<Entry>
  {
    if es == [] then [] else PortAll(es[..|es| - 1], port, socktype) + PortOne(es[|es| - 1], port, socktype)
  }

  /** Entries that ga_port counts: those it fills in with a port. */
  function Counts(e: Entry, socktype: int): nat
  {
    if !e.family.Local? && (e.clone || e.socktype == socktype) then 1 else 0
  }

  function CountAll(es: seq<Entry>, socktype: int): nat
  {
    if es == [] then 0 else CountAll(es[..|es| - 1], socktype) + Counts(es[|es| - 1], socktype)
  }

  /** `q` is `e` with the type and, unless it is local, the port. */
  predicate HasService(q: Entry, e: Entry, port: int, socktype: int)
  {
    && q.socktype == socktype && q.port == (if e.family.Local? then e.port else port)
    && q.family == e.family && q.ip == e.ip
  }

  /** What becomes of one entry, field by field, and when it is counted. */
  lemma {:induction false} PortOneIs(e: Entry, port: int, socktype: int)
    ensures var r := PortOne(e, port, socktype);
            if !e.clone && e.socktype != socktype then r == [e] && Counts(e, socktype) == 0
            else
              && Counts(e, socktype) == (if e.family.Local? then 0 else 1)
              && HasService(r[|r| - 1], e, port, socktype)
              && (if e.clone && e.socktype != 0 then |r| == 2 && r[0] == e && !r[1].clone
                  else |r| == 1 && r[0].clone == e.clone)
  {
  }

  predicate IsServedWith(e: Entry, port: int, socktype: int)
  {
    !e.family.Local? && e.socktype == socktype && e.port == port
  }

  /** Every entry that is counted ends up with the port and the type. */
  lemma {:induction false} CountedAreServed(es: seq<Entry>, port: int, socktype: int)
    ensures Tally((e: Entry) => IsServedWith(e, port, socktype), PortAll(es, port, socktype)) >= CountAll(es, socktype)
  {
    var p := (e: Entry) => IsServedWith(e, port, socktype);
    if es != [] {
      var n := |es| - 1;
      var one := PortOne(es[n], port, socktype);
      CountedAreServed(es[..n], port, socktype);
      PortOneIs(es[n], port, socktype);
      TallyConcat(p, PortAll(es[..n], port, socktype), one);
      if Counts(es[n], socktype) > 0 {
        TallyPositive(p, one);
        assert p(one[|one| - 1]);
      }
    }
  }

  // ----- the linked list -----

  class SockAddr {
    const ip: seq<int>
    var port: int

    constructor (ip: seq<int>, port: int)
      ensures this.ip == ip && this.port == port
    {
      this.ip, this.port := ip, port;
    }
  }

  class AddrInfo {
    const family: Family
    const addr: SockAddr
    var clone: bool
    var socktype: int
    var next: AddrInfo?

    constructor (clone: bool, family: Family, socktype: int, addr: SockAddr, next: AddrInfo?)
      ensures this.clone == clone && this.family == family && this.socktype == socktype
      ensures this.addr == addr && this.next == next
    {
      this.clone, this.family, this.socktype, this.addr, this.next := clone, family, socktype, addr, next;
    }

    ghost function Value(): Entry
      reads this, addr
    {
      Entry(clone, family, socktype, addr.ip, addr.port)
    }
  }

  ghost function Addrs(ns: seq<AddrInfo>): set<SockAddr>
  {
    set n | n in ns :: n.addr
  }

  /** `ns` are the nodes from `head` on, each with a socket address of its own. */
  ghost predicate IsList(head: AddrInfo?, ns: seq<AddrInfo>)
    reads ns
  {
    && (ns == [] <==> head == null)
    && (ns != [] ==> head == ns[0] && ns[|ns| - 1].next == null)
    && (forall i :: 0 <= i < |ns| - 1 ==> ns[i].next == ns[i + 1])
    && (forall i, j :: 0 <= i < j < |ns| ==> ns[i] != ns[j] && ns[i].addr != ns[j].addr)
  }

  ghost function View(ns: seq<AddrInfo>): (es: seq<Entry>)
    reads ns, Addrs(ns)
    ensures |es| == |ns|
  {
    seq(|ns|, i requires 0 <= i < |ns| reads ns, Addrs(ns) => ns[i].Value())
  }

  /** ga_clone: a copy with AI_CLONE off and its own socket address, linked in behind `ai`. */
  method GaClone(ai: AddrInfo) returns (n: AddrInfo)
    modifies ai`next
    ensures fresh(n) && fresh(n.addr)
    ensures ai.next == n && n.next == old(ai.next)
    ensures n.Value() == ai.Value().(clone := false)
  {
    var addr := new SockAddr(ai.addr.ip, ai.addr.port);
    n := new AddrInfo(false, ai.family, ai.socktype, addr, ai.next);
    ai.next := n;
  }

  /** Lines 47-62: the type and, for the Internet families, the port. */
  method FillIn(ai: AddrInfo, port: int, socktype: int) returns (found: nat)
    modifies ai`socktype, ai.addr`port
    ensures ai.Value() == Filled(old(ai.Value()), port, socktype)
    ensures ai.socktype == socktype && ai.addr.port == if ai.family.Local? then old(ai.addr.port) else port
    ensures found == if ai.family.Local? then 0 else 1
  {
    ai.socktype := socktype;
    match ai.family
    case Inet =>
      ai.addr.port := port;
      found := 1;
    case Inet6 =>
      ai.addr.port := port;
      found := 1;
    case Local =>
      found := 0;
  }

  lemma {:induction false} NextNode(head: AddrInfo?, ns: seq<AddrInfo>, d: nat)
    requires IsList(head, ns) && d < |ns|
    ensures ns[d].next == if d + 1 < |ns| then ns[d + 1] else null
    ensures ns[d].Value() == View(ns)[d]
  {
  }

  /** ga_clone on the d-th node of a list. */
  method CloneAt(ai: AddrInfo, ghost head: AddrInfo?, ghost ns: seq<AddrInfo>, ghost d: nat)
      returns (n: AddrInfo, ghost ms: seq<AddrInfo>)
    requires IsList(head, ns) && d < |ns| && ns[d] == ai
    modifies ai`next
    ensures fresh(n) && fresh(n.addr) && n.family == ai.family
    ensures ms == ns[..d + 1] + [n] + ns[d + 1..] && IsList(head, ms)
    ensures View(ms) == old(View(ns))[..d + 1] + [old(View(ns))[d].(clone := false)] + old(View(ns))[d + 1..]
  {
    NextNode(head, ns, d);
    n := GaClone(ai);
    ms := ns[..d + 1] + [n] + ns[d + 1..];
    forall i | 0 <= i < |ms| - 1 ensures ms[i].next == ms[i + 1] {
      if i > d + 1 {
        assert ns[i - 1].next == ns[i];
      }
    }
  }

  /** Filling in the d-th node of a list changes nothing else. */
  method FillAt(ai: AddrInfo, port: int, socktype: int, ghost head: AddrInfo?, ghost ns: seq<AddrInfo>, ghost d: nat)
      returns (found: nat)
    requires IsList(head, ns) && d < |ns| && ns[d] == ai
    modifies ai`socktype, ai.addr`port
    ensures IsList(head, ns)
    ensures View(ns) == old(View(ns))[d := Filled(old(View(ns))[d], port, socktype)]
    ensures found == if ai.family.Local? then 0 else 1
  {
    found := FillIn(ai, port, socktype);
  }

  /** The list in the middle of the walk: k entries done, the others untouched. */
  function Partly(es: seq<Entry>, k: nat, port: int, socktype: int): seq<Entry>
    requires k <= |es|
  {
    PortAll(es[..k], port, socktype) + es[k..]
  }

  /** One more entry, as the loop body changes it in place. */
  lemma {:induction false} PartlyStep(es: seq<Entry>, k: nat, port: int, socktype: int)
    requires k < |es|
    ensures var v := Partly(es, k, port, socktype);
            var v' := Partly(es, k + 1, port, socktype);
            var d := |PortAll(es[..k], port, socktype)|;
            && d < |v| && v[d] == es[k]
            && |PortAll(es[..k + 1], port, socktype)| == d + |PortOne(es[k], port, socktype)|
            && (es[k].clone && es[k].socktype != 0 ==>
                  v' == (v[..d + 1] + [es[k].(clone := false)] + v[d + 1..])
                          [d + 1 := Filled(es[k].(clone := false), port, socktype)])
            && (!es[k].clone && es[k].socktype != socktype ==> v' == v)
            && (!(es[k].clone && es[k].socktype != 0) && !(!es[k].clone && es[k].socktype != socktype) ==>
                  v' == v[d := Filled(es[k], port, socktype)])
  {
    hide Filled, PortAll;
    var done, e, rest := PortAll(es[..k], port, socktype), es[k], es[k + 1..];
    assert es[..k + 1] == es[..k] + [e] && es[k..] == [e] + rest;
    PortAllSnoc(es[..k], e, port, socktype);
    var v := Partly(es, k, port, socktype);
    assert v == done + [e] + rest;
    if e.clone && e.socktype != 0 {
      SpliceTwo(done, e, rest, e.(clone := false), Filled(e.(clone := false), port, socktype));
    } else if e.clone || e.socktype == socktype {
      SpliceOne(done, e, rest, Filled(e, port, socktype));
    }
  }

  lemma {:induction false} SpliceOne(a: seq<Entry>, e: Entry, b: seq<Entry>, x: Entry)
    ensures (a + [e] + b)[|a| := x] == a + [x] + b
  {
  }

  lemma {:induction false} SpliceTwo(a: seq<Entry>, e: Entry, b: seq<Entry>, x: Entry, y: Entry)
    ensures var v, d := a + [e] + b, |a|;
            (v[..d + 1] + [x] + v[d + 1..])[d + 1 := y] == a + [e, y] + b
  {
  }

  /** The loop body of ga_port on the k-th original entry, which is the d-th node by now. */
  method WalkOne(ai: AddrInfo, port: int, socktype: int, ghost head: AddrInfo?, ghost ns: seq<AddrInfo>,
                 ghost es: seq<Entry>, ghost k: nat)
      returns (next: AddrInfo?, found: nat, ghost ms: seq<AddrInfo>)
    requires IsList(head, ns) && k < |es| && View(ns) == Partly(es, k, port, socktype)
    requires ns[|PortAll(es[..k], port, socktype)|] == ai
    modifies ai`next, ai`socktype, ai.addr`port
    ensures IsList(head, ms) && View(ms) == Partly(es, k + 1, port, socktype)
    ensures forall m :: m in ms ==> m in ns || (fresh(m) && fresh(m.addr))
    ensures var d := |PortAll(es[..k + 1], port, socktype)|; d <= |ms| && next == if d < |ms| then ms[d] else null
    ensures found == Counts(es[k], socktype)
  {
    hide View, IsList, PortAll, CountAll, Partly, Filled;
    ghost var d := |PortAll(es[..k], port, socktype)|;
    PartlyStep(es, k, port, socktype);
    NextNode(head, ns, d);
    found := 0;
    ms := ns;
    if ai.clone && ai.socktype != 0 {
      var cloned;
      cloned, ms := CloneAt(ai, head, ns, d);
      found := FillAt(cloned, port, socktype, head, ms, d + 1);
      NextNode(head, ms, d + 1);
      next := cloned.next;
    } else {
      if ai.clone || ai.socktype == socktype {
        found := FillAt(ai, port, socktype, head, ns, d);
      }
      NextNode(head, ns, d);
      next := ai.next;
    }
  }

  /** ga_port. `ns` are the nodes of the list before the call and `ms` those after it. */
  method GaPort(head: AddrInfo?, port: int, socktype: int, ghost ns: seq<AddrInfo>)
      returns (nfound: nat, ghost ms: seq<AddrInfo>)
    requires IsList(head, ns)
    modifies ns, Addrs(ns)
    ensures IsList(head, ms) && (forall m :: m in ms ==> m in ns || (fresh(m) && fresh(m.addr)))
    ensures View(ms) == PortAll(old(View(ns)), port, socktype)
    ensures nfound == CountAll(old(View(ns)), socktype)
  {
    hide View, IsList, PortAll, CountAll, Filled;
    ghost var es := View(ns);
    nfound := 0;
    var ai := head;
    ms := ns;
    ghost var k := 0;
    WalkStart(head, ns, port, socktype);
    while ai != null
      invariant 0 <= k <= |ns| && IsList(head, ms) && View(ms) == Partly(es, k, port, socktype)
      invariant var d := |PortAll(es[..k], port, socktype)|; d <= |ms| && ai == if d < |ms| then ms[d] else null
      invariant forall m :: m in ms ==> m in ns || (fresh(m) && fresh(m.addr))
      invariant nfound == CountAll(es[..k], socktype)
      decreases |ns| - k
    {
      assert ai in ms;
      CountStep(es, k, socktype);
      var found;
      ai, found, ms := WalkOne(ai, port, socktype, head, ms, es, k);
      nfound := nfound + found;
      k := k + 1;
    }
    WalkEnd(es, port, socktype);
  }

  lemma {:induction false} CountStep(es: seq<Entry>, k: nat, socktype: int)
    requires k < |es|
    ensures CountAll(es[..k + 1], socktype) == CountAll(es[..k], socktype) + Counts(es[k], socktype)
  {
    assert es[..k + 1][..k] == es[..k] && es[..k + 1][k] == es[k];
  }

  lemma {:induction false} WalkStart(head: AddrInfo?, ns: seq<AddrInfo>, port: int, socktype: int)
    requires IsList(head, ns)
    ensures PortAll(View(ns)[..0], port, socktype) == [] && CountAll(View(ns)[..0], socktype) == 0
    ensures Partly(View(ns), 0, port, socktype) == View(ns)
    ensures head == if ns != [] then ns[0] else null
  {
  }

  lemma {:induction false} WalkEnd(es: seq<Entry>, port: int, socktype: int)
    ensures Partly(es, |es|, port, socktype) == PortAll(es, port, socktype)
    ensures CountAll(es[..|es|], socktype) == CountAll(es, socktype)
  {
    assert es[..|es|] == es;
  }

  // ----- several calls on one list -----

  datatype Call = Call(port: int, socktype: int)

  function AfterCalls(es: seq<Entry>, calls: seq<Call>): seq<Entry>
  {
    if calls == [] then es
    else
      var c := calls[|calls| - 1];
      PortAll(AfterCalls(es, calls[..|calls| - 1]), c.port, c.socktype)
  }

  lemma {:induction false} PortAllSnoc(es: seq<Entry>, e: Entry, port: int, socktype: int)
    ensures PortAll(es + [e], port, socktype) == PortAll(es, port, socktype) + PortOne(e, port, socktype)
    ensures CountAll(es + [e], socktype) == CountAll(es, socktype) + Counts(e, socktype)
  {
    assert (es + [e])[..|es|] == es;
  }

  lemma {:induction false} PortAllConcat(a: seq<Entry>, b: seq<Entry>, port: int, socktype: int)
    ensures PortAll(a + b, port, socktype) == PortAll(a, port, socktype) + PortAll(b, port, socktype)
    ensures CountAll(a + b, socktype) == CountAll(a, socktype) + CountAll(b, socktype)
  {
    if b == [] {
      assert a + b == a;
    } else {
      hide *;
      var n := |b| - 1;
      var last := [b[n]];
      PortAllConcat(a, b[..n], port, socktype);
      assert b == b[..n] + last;
      Regroup(a, b[..n], last);
      PortAllSnoc(a + b[..n], b[n], port, socktype);
      PortAllSnoc(b[..n], b[n], port, socktype);
      Regroup(PortAll(a, port, socktype), PortAll(b[..n], port, socktype), PortOne(b[n], port, socktype));
    }
  }

  /** Addresses do not influence each other. */
  lemma {:induction false} AfterCallsConcat(a: seq<Entry>, b: seq<Entry>, calls: seq<Call>)
    ensures AfterCalls(a + b, calls) == AfterCalls(a, calls) + AfterCalls(b, calls)
  {
    if calls != [] {
      var n := |calls| - 1;
      AfterCallsConcat(a, b, calls[..n]);
      PortAllConcat(AfterCalls(a, calls[..n]), AfterCalls(b, calls[..n]), calls[n].port, calls[n].socktype);
    }
  }

  /** An entry as the host search leaves it when the caller gave no socket type. */
  predicate IsFresh(h: Entry)
  {
    h.clone && h.socktype == 0
  }

  predicate AllFresh(hs: seq<Entry>)
  {
    forall i :: 0 <= i < |hs| ==> IsFresh(hs[i])
  }

  /** A nonempty list of addresses as its front and its last one. */
  lemma {:induction false} FrontAndLast(hs: seq<Entry>) returns (front: seq<Entry>, last: Entry)
    requires AllFresh(hs) && hs != []
    ensures hs == front + [last] && |front| < |hs| && AllFresh(front) && IsFresh(last)
  {
    front, last := hs[..|hs| - 1], hs[|hs| - 1];
  }

  predicate Typed(calls: seq<Call>)
  {
    forall j :: 0 <= j < |calls| ==> calls[j].socktype != 0
  }

  predicate Distinct(calls: seq<Call>)
  {
    forall i, j :: 0 <= i < j < |calls| ==> calls[i].socktype != calls[j].socktype
  }

  /**
   * The entries of one address after calls with distinct types: the address itself with the first
   * type, then the clones, last type first. A local address keeps its port.
   */
  function Group(h: Entry, calls: seq<Call>): (g: seq<Entry>)
    requires calls != []
    ensures |g| == |calls|
  {
    seq(|calls|, i requires 0 <= i < |calls| => FilledBy(h.(clone := i == 0), calls[if i == 0 then 0 else |calls| - i]))
  }

  function FilledBy(e: Entry, c: Call): Entry
  {
    Filled(e, c.port, c.socktype)
  }

  lemma {:induction false} NoMatch(es: seq<Entry>, port: int, socktype: int)
    requires forall i :: 0 <= i < |es| ==> !es[i].clone && es[i].socktype != socktype
    ensures PortAll(es, port, socktype) == es && CountAll(es, socktype) == 0
  {
    if es != [] {
      var n := |es| - 1;
      NoMatch(es[..n], port, socktype);
      assert PortOne(es[n], port, socktype) == [es[n]] && es[..n] + [es[n]] == es;
    }
  }

  /** Behind the address, the clones of earlier calls come in the order in which they were. */
  lemma {:induction false} GroupGrows(h: Entry, calls: seq<Call>, c: Call)
    requires IsFresh(h) && calls != []
    ensures Group(h, calls + [c]) ==
            [Group(h, calls)[0], FilledBy(h.(clone := false), c)] + Group(h, calls)[1..]
    ensures Group(h, calls)[0] == FilledBy(h, calls[0])
  {
    hide FilledBy;
    var g, g' := Group(h, calls), Group(h, calls + [c]);
    assert h.(clone := true) == h;
    forall i | 2 <= i < |g'| ensures g'[i] == g[i - 1] {
      assert (calls + [c])[|g'| - i] == calls[|calls| - (i - 1)];
    }
  }

  /** One more call with a new type puts its clone right behind the address. */
  lemma {:induction false} NewType(h: Entry, calls: seq<Call>, c: Call)
    requires IsFresh(h) && calls != [] && Typed(calls) && Distinct(calls + [c])
    ensures PortAll(Group(h, calls), c.port, c.socktype) == Group(h, calls + [c])
    ensures CountAll(Group(h, calls), c.socktype) == Internet([h])
  {
    hide PortAll, CountAll;
    var g := Group(h, calls);
    var n := |calls|;
    forall i | 1 <= i < n ensures !g[i].clone && g[i].socktype != c.socktype {
      assert (calls + [c])[n - i].socktype != (calls + [c])[n].socktype;
    }
    NoMatch(g[1..], c.port, c.socktype);
    PortAllConcat([g[0]], g[1..], c.port, c.socktype);
    assert g == [g[0]] + g[1..];
    PortAllOne(g[0], c.port, c.socktype);
    GroupGrows(h, calls, c);
    assert PortOne(g[0], c.port, c.socktype) == [g[0], FilledBy(h.(clone := false), c)];
    InternetOne(h);
  }

  /** The addresses that ga_port can give a port to. */
  function Internet(hs: seq<Entry>): nat
  {
    if hs == [] then 0 else Internet(hs[..|hs| - 1]) + One(!hs[|hs| - 1].family.Local?)
  }

  lemma {:induction false} InternetOne(h: Entry)
    ensures Internet([h]) == One(!h.family.Local?)
  {
    assert [h][..0] == [];
  }

  lemma {:induction false} AllInternet(hs: seq<Entry>)
    requires forall i :: 0 <= i < |hs| ==> !hs[i].family.Local?
    ensures Internet(hs) == |hs|
  {
    if hs != [] {
      AllInternet(hs[..|hs| - 1]);
    }
  }

  lemma {:induction false} PortAllOne(e: Entry, port: int, socktype: int)
    ensures PortAll([e], port, socktype) == PortOne(e, port, socktype)
    ensures CountAll([e], socktype) == Counts(e, socktype)
  {
    assert PortAll([], port, socktype) == [] && CountAll([], socktype) == 0;
    assert [e][..0] == [];
  }

  lemma {:induction false} GroupAfterCalls(h: Entry, calls: seq<Call>)
    requires IsFresh(h) && calls != [] && Typed(calls) && Distinct(calls)
    ensures AfterCalls([h], calls) == Group(h, calls)
    decreases |calls|
  {
    hide AfterCalls, PortAll, Group, TotalFound, CountAll;
    var front, c := calls[..|calls| - 1], calls[|calls| - 1];
    assert calls == front + [c];
    OneMoreCall([h], front, c);
    if front == [] {
      NoCalls([h]);
      PortAllOne(h, c.port, c.socktype);
      GroupOfOne(h, calls);
    } else {
      GroupAfterCalls(h, front);
      NewType(h, front, c);
    }
  }

  lemma {:induction false} GroupOfOne(h: Entry, calls: seq<Call>)
    requires IsFresh(h) && |calls| == 1
    ensures Group(h, calls) == [FilledBy(h, calls[0])]
  {
    assert h.(clone := true) == h;
  }

  function AllGroups(hs: seq<Entry>, calls: seq<Call>): seq<Entry>
    requires calls != []
  {
    if hs == [] then [] else AllGroups(hs[..|hs| - 1], calls) + Group(hs[|hs| - 1], calls)
  }

  /**
   * Calls with distinct types on n addresses without types: the addresses stay in order, each
   * followed by its clones, one entry per call.
   */
  lemma {:induction false} OneEntryPerAddressAndType(hs: seq<Entry>, calls: seq<Call>)
    requires AllFresh(hs) && calls != [] && Typed(calls) && Distinct(calls)
    ensures AfterCalls(hs, calls) == AllGroups(hs, calls)
    decreases |hs|
  {
    if hs == [] {
      NoEntries(calls);
    } else {
      hide *;
      var front, last := FrontAndLast(hs);
      OneEntryPerAddressAndType(front, calls);
      GroupAfterCalls(last, calls);
      AfterCallsConcat(front, [last], calls);
      AllGroupsSnoc(front, last, calls);
    }
  }

  lemma {:induction false} AllGroupsSnoc(hs: seq<Entry>, h: Entry, calls: seq<Call>)
    requires calls != []
    ensures AllGroups(hs + [h], calls) == AllGroups(hs, calls) + Group(h, calls)
  {
    hide Group;
    assert (hs + [h])[..|hs|] == hs;
  }

  lemma {:induction false} NoEntries(calls: seq<Call>)
    ensures AfterCalls([], calls) == []
  {
    if calls != [] {
      NoEntries(calls[..|calls| - 1]);
    }
  }

  /** In a group, the type of call j occurs at exactly one place, with that call's port and the address. */
  lemma {:induction false} OncePerType(h: Entry, calls: seq<Call>, j: nat)
    requires IsFresh(h) && Distinct(calls) && j < |calls|
    ensures var g := Group(h, calls);
            var at := if j == 0 then 0 else |calls| - j;
            && HasService(g[at], h, calls[j].port, calls[j].socktype) && (g[at].clone <==> j == 0)
            && forall i :: 0 <= i < |g| && i != at ==> g[i].socktype != calls[j].socktype
  {
    hide Group, HasService;
    var at := if j == 0 then 0 else |calls| - j;
    GroupAt(h, calls, at);
    forall i | 0 <= i < |calls| && i != at ensures Group(h, calls)[i].socktype != calls[j].socktype {
      GroupAt(h, calls, i);
      assert (if i == 0 then 0 else |calls| - i) != j;
    }
  }

  lemma {:induction false} GroupAt(h: Entry, calls: seq<Call>, i: nat)
    requires i < |calls|
    ensures var c := calls[if i == 0 then 0 else |calls| - i];
            var q := Group(h, calls)[i];
            HasService(q, h, c.port, c.socktype) && q.socktype == c.socktype && (q.clone <==> i == 0)
  {
  }

  /** Each of the calls returns the number of addresses, not counting local ones. */
  lemma {:induction false} EachCallFindsAll(hs: seq<Entry>, calls: seq<Call>, c: Call)
    requires AllFresh(hs) && Typed(calls + [c]) && Distinct(calls + [c])
    ensures CountAll(AfterCalls(hs, calls), c.socktype) == Internet(hs)
    decreases |hs|
  {
    if hs == [] {
      NoEntries(calls);
    } else {
      hide *;
      var front, last := FrontAndLast(hs);
      EachCallFindsAll(front, calls, c);
      OneFinds(last, calls, c);
      AfterCallsConcat(front, [last], calls);
      PortAllConcat(AfterCalls(front, calls), AfterCalls([last], calls), c.port, c.socktype);
      InternetSnoc(front, last);
    }
  }

  lemma {:induction false} InternetSnoc(hs: seq<Entry>, h: Entry)
    ensures Internet(hs + [h]) == Internet(hs) + One(!h.family.Local?)
  {
    assert (hs + [h])[..|hs|] == hs;
  }

  lemma {:induction false} OneFinds(h: Entry, calls: seq<Call>, c: Call)
    requires IsFresh(h) && Typed(calls + [c]) && Distinct(calls + [c])
    ensures CountAll(AfterCalls([h], calls), c.socktype) == One(!h.family.Local?)
  {
    hide CountAll;
    assert forall j :: 0 <= j < |calls| ==> (calls + [c])[j] == calls[j];
    if calls == [] {
      PortAllOne(h, c.port, c.socktype);
    } else {
      GroupAfterCalls(h, calls);
      NewType(h, calls, c);
      InternetOne(h);
    }
  }

  // ----- repeated types -----

  function Types(es: seq<Entry>): (ts: seq<int>)
    ensures |ts| == |es|
  {
    seq(|es|, i requires 0 <= i < |es| => es[i].socktype)
  }

  function CallTypes(calls: seq<Call>): (ts: seq<int>)
    ensures |ts| == |calls|
  {
    seq(|calls|, i requires 0 <= i < |calls| => calls[i].socktype)
  }

  /** An address that has a type, and its clones. */
  ghost predicate Opened(es: seq<Entry>)
  {
    es != [] && es[0].clone && es[0].socktype != 0 && forall i :: 1 <= i < |es| ==> !es[i].clone
  }

  lemma {:induction false} ClonesKeepTypes(es: seq<Entry>, port: int, socktype: int)
    requires forall i :: 0 <= i < |es| ==> !es[i].clone
    ensures var r := PortAll(es, port, socktype);
            |r| == |es| && Types(r) == Types(es) && forall i :: 0 <= i < |r| ==> !r[i].clone
  {
    if es != [] {
      var n := |es| - 1;
      var one := PortOne(es[n], port, socktype);
      ClonesKeepTypes(es[..n], port, socktype);
      assert |one| == 1 && one[0].socktype == es[n].socktype && !one[0].clone;
      assert Types(es) == Types(es[..n]) + [es[n].socktype];
    }
  }

  /**
   * Without the condition that types are distinct: an address has as many entries of a type as
   * there were calls with it.
   */
  lemma {:induction false} EntriesPerTypeAreCalls(h: Entry, calls: seq<Call>)
    requires IsFresh(h) && calls != [] && Typed(calls)
    ensures Opened(AfterCalls([h], calls))
    ensures multiset(Types(AfterCalls([h], calls))) == multiset(CallTypes(calls))
  {
    hide PortAll, AfterCalls, CountAll;
    var n := |calls| - 1;
    var c := calls[n];
    OneMoreCall([h], calls[..n], c);
    assert calls == calls[..n] + [c];
    if n == 0 {
      NoCalls([h]);
      PortAllOne(h, c.port, c.socktype);
      assert Types(AfterCalls([h], calls)) == [c.socktype] == CallTypes(calls);
    } else {
      EntriesPerTypeAreCalls(h, calls[..n]);
      var es := AfterCalls([h], calls[..n]);
      OneMoreEntry(es, c);
      CallTypesSnoc(calls[..n], c);
      OneMoreOf(es[0].socktype, c.socktype, Types(es));
    }
  }

  /** Exactly one entry per address and type, if and only if no type is passed twice. */
  lemma {:induction false} OneEachUnlessRepeated(h: Entry, calls: seq<Call>)
    requires IsFresh(h) && calls != [] && Typed(calls)
    ensures (forall j :: 0 <= j < |calls| ==> multiset(Types(AfterCalls([h], calls)))[calls[j].socktype] == 1) <==>
            Distinct(calls)
  {
    hide AfterCalls, Types;
    EntriesPerTypeAreCalls(h, calls);
    var ts := CallTypes(calls);
    if Distinct(calls) {
      forall j | 0 <= j < |calls| ensures multiset(ts)[calls[j].socktype] == 1 {
        SplitAt(ts, j);
        assert calls[j].socktype !in ts[..j] && calls[j].socktype !in ts[j + 1..];
      }
    } else {
      var i, j :| 0 <= i < j < |calls| && calls[i].socktype == calls[j].socktype;
      SplitAt(ts, j);
      assert ts[..j][i] == calls[j].socktype;
      assert multiset(ts)[calls[j].socktype] != 1;
    }
  }

  lemma {:induction false} SplitAt(ts: seq<int>, j: nat)
    requires j < |ts|
    ensures multiset(ts)[ts[j]] == 1 + multiset(ts[..j])[ts[j]] + multiset(ts[j + 1..])[ts[j]]
  {
    assert ts == ts[..j] + [ts[j]] + ts[j + 1..];
  }

  lemma {:induction false} CallTypesSnoc(calls: seq<Call>, c: Call)
    ensures CallTypes(calls + [c]) == CallTypes(calls) + [c.socktype]
  {
  }

  lemma {:induction false} OneMoreOf(x: int, y: int, ts: seq<int>)
    requires ts != [] && ts[0] == x
    ensures multiset([x] + [y] + ts[1..]) == multiset(ts + [y])
  {
    assert ts == [x] + ts[1..];
  }

  lemma {:induction false} OneMoreEntry(es: seq<Entry>, c: Call)
    requires Opened(es)
    ensures Opened(PortAll(es, c.port, c.socktype))
    ensures Types(PortAll(es, c.port, c.socktype)) == [es[0].socktype] + [c.socktype] + Types(es)[1..]
  {
    hide PortAll, CountAll;
    ClonesKeepTypes(es[1..], c.port, c.socktype);
    PortAllConcat([es[0]], es[1..], c.port, c.socktype);
    assert es == [es[0]] + es[1..];
    PortAllOne(es[0], c.port, c.socktype);
    assert Types(es[1..]) == Types(es)[1..];
    var rest := PortAll(es[1..], c.port, c.socktype);
    var two := PortOne(es[0], c.port, c.socktype);
    TypesConcat(two, rest);
    assert Types(two) == [es[0].socktype] + [c.socktype];
  }

  lemma {:induction false} TypesConcat(a: seq<Entry>, b: seq<Entry>)
    ensures Types(a + b) == Types(a) + Types(b)
  {
  }

  // ----- ga_serv -----

  const SOCK_STREAM := 1
  const SOCK_DGRAM := 2

  /** The service string: a port number, or a name with what getservbyname finds for tcp and udp. */
  datatype Service = Number(port: int) | Name(tcp: Option<int>, udp: Option<int>)

  datatype Code = Found | NoName | NoService

  /** The ga_port calls that ga_serv makes. */
  function ServiceCalls(hint: int, serv: Service): seq<Call>
  {
    match serv
    case Number(port) => if hint != 0 then [Call(port, hint)] else [Call(port, SOCK_STREAM), Call(port, SOCK_DGRAM)]
    case Name(tcp, udp) =>
      (if (hint == 0 || hint == SOCK_STREAM) && tcp.Some? then [Call(tcp.value, SOCK_STREAM)] else []) +
      (if (hint == 0 || hint == SOCK_DGRAM) && udp.Some? then [Call(udp.value, SOCK_DGRAM)] else [])
  }

  function TotalFound(es: seq<Entry>, calls: seq<Call>): nat
  {
    if calls == [] then 0
    else
      var before := calls[..|calls| - 1];
      TotalFound(es, before) + CountAll(AfterCalls(es, before), calls[|calls| - 1].socktype)
  }

  lemma {:induction false} OneMoreCall(es: seq<Entry>, calls: seq<Call>, c: Call)
    ensures AfterCalls(es, calls + [c]) == PortAll(AfterCalls(es, calls), c.port, c.socktype)
    ensures TotalFound(es, calls + [c]) == TotalFound(es, calls) + CountAll(AfterCalls(es, calls), c.socktype)
  {
    assert (calls + [c])[..|calls|] == calls;
  }

  /** Two calls with the same type give an address two entries of that type. */
  lemma {:induction false} TwiceTheSameType(h: Entry, p: int, q: int)
    requires IsFresh(h)
    ensures var calls := [Call(p, SOCK_STREAM), Call(q, SOCK_STREAM)];
            multiset(Types(AfterCalls([h], calls)))[SOCK_STREAM] == 2
  {
    hide AfterCalls, Types;
    var calls := [Call(p, SOCK_STREAM), Call(q, SOCK_STREAM)];
    EntriesPerTypeAreCalls(h, calls);
    assert CallTypes(calls) == [SOCK_STREAM, SOCK_STREAM];
  }

  /**
   * The calls of ga_port one after the other on one list, with distinct types: the list ends up
   * with one entry per address and type, in order, and every call finds all addresses.
   */
  method GaPortEach(head: AddrInfo?, calls: seq<Call>, ghost ns: seq<AddrInfo>)
      returns (found: seq<nat>, ghost ms: seq<AddrInfo>)
    requires IsList(head, ns) && calls != [] && Typed(calls) && Distinct(calls)
    requires AllFresh(View(ns))
    modifies ns, Addrs(ns)
    ensures IsList(head, ms) && View(ms) == AllGroups(old(View(ns)), calls)
    ensures |found| == |calls| && forall j :: 0 <= j < |found| ==> found[j] == Internet(old(View(ns)))
  {
    hide View, IsList, PortAll, CountAll, AfterCalls, Internet, Group, AllGroups;
    ghost var es := View(ns);
    found, ms := [], ns;
    var k := 0;
    NoCalls(es);
    assert calls[..0] == [];
    while k < |calls|
      invariant 0 <= k == |found| <= |calls| && IsList(head, ms) && View(ms) == AfterCalls(es, calls[..k])
      invariant forall m :: m in ms ==> m in ns || (fresh(m) && fresh(m.addr))
      invariant forall j :: 0 <= j < k ==> found[j] == Internet(es)
    {
      assert calls[..k + 1] == calls[..k] + [calls[k]];
      OneMoreCall(es, calls[..k], calls[k]);
      EachCallFindsAll(es, calls[..k], calls[k]);
      assert forall i :: 0 <= i < |ms| ==> ms[i] in ns || fresh(ms[i]);
      assert forall a :: a in Addrs(ms) ==> a in Addrs(ns) || fresh(a);
      var n;
      n, ms := GaPort(head, calls[k].port, calls[k].socktype, ms);
      found := found + [n];
      k := k + 1;
    }
    assert calls[..k] == calls;
    OneEntryPerAddressAndType(es, calls);
  }

  /** One of the calls of ga_port that ga_serv makes, with the sum of what they returned. */
  method AnotherPort(head: AddrInfo?, c: Call, sum: nat, ghost es: seq<Entry>, ghost calls: seq<Call>,
                     ghost ns: seq<AddrInfo>)
      returns (ghost calls': seq<Call>, sum': nat, ghost ms: seq<AddrInfo>)
    requires IsList(head, ns) && View(ns) == AfterCalls(es, calls) && sum == TotalFound(es, calls)
    modifies ns, Addrs(ns)
    ensures calls' == calls + [c]
    ensures IsList(head, ms) && (forall m :: m in ms ==> m in ns || (fresh(m) && fresh(m.addr)))
    ensures View(ms) == AfterCalls(es, calls') && sum' == TotalFound(es, calls')
  {
    hide View, IsList, PortAll, CountAll, AfterCalls, TotalFound;
    OneMoreCall(es, calls, c);
    calls' := calls + [c];
    var rc;
    rc, ms := GaPort(head, c.port, c.socktype, ns);
    sum' := sum + rc;
  }

  /** ga_serv: the list it leaves and its return code. */
  method GaServ(head: AddrInfo?, hint: int, serv: Service, ghost ns: seq<AddrInfo>)
      returns (code: Code, ghost ms: seq<AddrInfo>)
    requires IsList(head, ns)
    modifies ns, Addrs(ns)
    ensures IsList(head, ms)
    ensures View(ms) == AfterCalls(old(View(ns)), ServiceCalls(hint, serv))
    ensures code == if TotalFound(old(View(ns)), ServiceCalls(hint, serv)) > 0 then Found
                    else if hint == 0 then NoName else NoService
  {
    hide View, IsList, PortAll, CountAll, AfterCalls, TotalFound;
    ghost var es := View(ns);
    var nfound := 0;
    ms := ns;
    ghost var calls: seq<Call> := [];
    NoCalls(es);
    match serv {
      case Number(port) =>
        if hint != 0 {
          calls, nfound, ms := AnotherPort(head, Call(port, hint), nfound, es, calls, ms);
        } else {
          calls, nfound, ms := AnotherPort(head, Call(port, SOCK_STREAM), nfound, es, calls, ms);
          assert forall i :: 0 <= i < |ms| ==> ms[i] in ns || fresh(ms[i]);
          assert forall a :: a in Addrs(ms) ==> a in Addrs(ns) || fresh(a);
          calls, nfound, ms := AnotherPort(head, Call(port, SOCK_DGRAM), nfound, es, calls, ms);
        }
      case Name(tcp, udp) =>
        if (hint == 0 || hint == SOCK_STREAM) && tcp.Some? {
          calls, nfound, ms := AnotherPort(head, Call(tcp.value, SOCK_STREAM), nfound, es, calls, ms);
        }
        if (hint == 0 || hint == SOCK_DGRAM) && udp.Some? {
          assert forall i :: 0 <= i < |ms| ==> ms[i] in ns || fresh(ms[i]);
          assert forall a :: a in Addrs(ms) ==> a in Addrs(ns) || fresh(a);
          calls, nfound, ms := AnotherPort(head, Call(udp.value, SOCK_DGRAM), nfound, es, calls, ms);
        }
    }
    assert calls == ServiceCalls(hint, serv);
    code := if nfound == 0 then (if hint == 0 then NoName else NoService) else Found;
  }

  lemma {:induction false} NoCalls(es: seq<Entry>)
    ensures AfterCalls(es, []) == es && TotalFound(es, []) == 0
  {
  }

  /** Each address, first its stream, then its datagram entry. */
  ghost predicate StreamsAndDatagrams(r: seq<Entry>, hs: seq<Entry>, tcp: int, udp: int)
  {
    && |r| == 2 * |hs|
    && forall i :: 0 <= i < |hs| ==>
         && HasService(r[2 * i], hs[i], tcp, SOCK_STREAM) && r[2 * i].clone
         && HasService(r[2 * i + 1], hs[i], udp, SOCK_DGRAM) && !r[2 * i + 1].clone
  }

  /** The addresses themselves, with one service. */
  ghost predicate OneService(r: seq<Entry>, hs: seq<Entry>, port: int, socktype: int)
  {
    |r| == |hs| && forall i :: 0 <= i < |hs| ==> HasService(r[i], hs[i], port, socktype) && r[i].clone
  }

  /** The order promised for a service with both transports, by name or by number. */
  lemma {:induction false} StreamThenDatagram(hs: seq<Entry>, tcp: int, udp: int)
    requires AllFresh(hs)
    ensures StreamsAndDatagrams(AfterCalls(hs, ServiceCalls(0, Name(Some(tcp), Some(udp)))), hs, tcp, udp)
    ensures StreamsAndDatagrams(AfterCalls(hs, ServiceCalls(0, Number(tcp))), hs, tcp, tcp)
  {
    hide AfterCalls, AllGroups;
    TwoServices(hs, tcp, udp);
    TwoServices(hs, tcp, tcp);
    assert ServiceCalls(0, Name(Some(tcp), Some(udp))) == [Call(tcp, SOCK_STREAM), Call(udp, SOCK_DGRAM)];
  }

  lemma {:induction false} TwoServices(hs: seq<Entry>, tcp: int, udp: int)
    requires AllFresh(hs)
    ensures StreamsAndDatagrams(AfterCalls(hs, [Call(tcp, SOCK_STREAM), Call(udp, SOCK_DGRAM)]), hs, tcp, udp)
  {
    hide AfterCalls, AllGroups;
    var calls := [Call(tcp, SOCK_STREAM), Call(udp, SOCK_DGRAM)];
    OneEntryPerAddressAndType(hs, calls);
    GroupsOfTwo(hs, calls);
  }

  lemma {:induction false} SingleService(hs: seq<Entry>, port: int, socktype: int)
    requires AllFresh(hs)
    ensures OneService(AfterCalls(hs, [Call(port, socktype)]), hs, port, socktype)
    ensures TotalFound(hs, [Call(port, socktype)]) == Internet(hs)
  {
    hide AfterCalls, PortAll, TotalFound, CountAll;
    NoCalls(hs);
    OneMoreCall(hs, [], Call(port, socktype));
    assert [] + [Call(port, socktype)] == [Call(port, socktype)];
    FirstCall(hs, port, socktype);
  }

  lemma {:induction false} FirstCall(hs: seq<Entry>, port: int, socktype: int)
    requires AllFresh(hs)
    ensures OneService(PortAll(hs, port, socktype), hs, port, socktype)
    ensures CountAll(hs, socktype) == Internet(hs)
    decreases |hs|
  {
    if hs != [] {
      hide PortAll, CountAll, Internet;
      var front, last := FrontAndLast(hs);
      FirstCall(front, port, socktype);
      PortAllSnoc(front, last, port, socktype);
      PortOneIs(last, port, socktype);
      InternetSnoc(front, last);
    }
  }

  /** A given socket type selects one transport. */
  lemma {:induction false} GivenType(hs: seq<Entry>, hint: int, port: int, tcp: Option<int>, udp: Option<int>)
    requires AllFresh(hs)
    ensures hint != 0 ==> OneService(AfterCalls(hs, ServiceCalls(hint, Number(port))), hs, port, hint)
    ensures tcp.Some? ==>
              OneService(AfterCalls(hs, ServiceCalls(SOCK_STREAM, Name(tcp, udp))), hs, tcp.value, SOCK_STREAM)
    ensures udp.Some? ==>
              OneService(AfterCalls(hs, ServiceCalls(SOCK_DGRAM, Name(tcp, udp))), hs, udp.value, SOCK_DGRAM)
  {
    hide AfterCalls, OneService;
    SingleService(hs, port, hint);
    if tcp.Some? {
      SingleService(hs, tcp.value, SOCK_STREAM);
      assert ServiceCalls(SOCK_STREAM, Name(tcp, udp)) == [Call(tcp.value, SOCK_STREAM)];
    }
    if udp.Some? {
      SingleService(hs, udp.value, SOCK_DGRAM);
      assert ServiceCalls(SOCK_DGRAM, Name(tcp, udp)) == [Call(udp.value, SOCK_DGRAM)];
    }
  }

  /** Without a type, a service known for one transport gives each address one entry. */
  lemma {:induction false} OneTransport(hs: seq<Entry>, port: int)
    requires AllFresh(hs)
    ensures OneService(AfterCalls(hs, ServiceCalls(0, Name(Some(port), None))), hs, port, SOCK_STREAM)
    ensures OneService(AfterCalls(hs, ServiceCalls(0, Name(None, Some(port)))), hs, port, SOCK_DGRAM)
  {
    hide AfterCalls, OneService;
    SingleService(hs, port, SOCK_STREAM);
    SingleService(hs, port, SOCK_DGRAM);
    assert ServiceCalls(0, Name(Some(port), None)) == [Call(port, SOCK_STREAM)];
    assert ServiceCalls(0, Name(None, Some(port))) == [Call(port, SOCK_DGRAM)];
  }

  /** A name that is not known for what is asked leaves the list alone and finds nothing. */
  lemma {:induction false} UnknownService(es: seq<Entry>, hint: int, tcp: Option<int>, udp: Option<int>)
    requires (hint == 0 || hint == SOCK_STREAM) ==> tcp == None
    requires (hint == 0 || hint == SOCK_DGRAM) ==> udp == None
    ensures AfterCalls(es, ServiceCalls(hint, Name(tcp, udp))) == es
    ensures TotalFound(es, ServiceCalls(hint, Name(tcp, udp))) == 0
  {
    NoCalls(es);
  }

  ghost predicate Paired(hs: seq<Entry>, r: seq<Entry>, calls: seq<Call>)
    requires |calls| == 2
  {
    && |r| == 2 * |hs|
    && forall i :: 0 <= i < |hs| ==> r[2 * i] == Group(hs[i], calls)[0] && r[2 * i + 1] == Group(hs[i], calls)[1]
  }

  lemma {:induction false} PairedSnoc(hs: seq<Entry>, r: seq<Entry>, h: Entry, calls: seq<Call>)
    requires |calls| == 2 && Paired(hs, r, calls)
    ensures Paired(hs + [h], r + Group(h, calls), calls)
  {
    hide Group;
  }

  lemma {:induction false} GroupsOfTwo(hs: seq<Entry>, calls: seq<Call>)
    requires |calls| == 2 && AllFresh(hs)
    ensures Paired(hs, AllGroups(hs, calls), calls)
    decreases |hs|
  {
    if hs != [] {
      hide *;
      var front, last := FrontAndLast(hs);
      GroupsOfTwo(front, calls);
      AllGroupsSnoc(front, last, calls);
      PairedSnoc(front, AllGroups(front, calls), last, calls);
    }
  }
}
