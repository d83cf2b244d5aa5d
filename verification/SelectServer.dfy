/**
 * The TCP echo server with one select loop: a table of client descriptors, the descriptor set
 * that select watches, and a countdown of the ready descriptors.
 * Source: unpv13e/tcpcliserv/tcpservselect01.c.
 */
module SelectServer {
  import opened Counting

  const FD_SETSIZE := 1024

  /** The client descriptors in a table; free entries are negative. */
  function Live(cs: seq<int>): set<int>
  {
    set i | 0 <= i < |cs| && cs[i] >= 0 :: cs[i]
  }

  ghost predicate Separate(cs: seq<int>)
  {
    forall i, j :: 0 <= i < j < |cs| && cs[i] >= 0 && cs[j] >= 0 ==> cs[i] != cs[j]
  }

  /** What select is told to watch is exactly the listening socket and the live clients. */
  ghost predicate Watched(listenfd: int, cs: seq<int>, allset: set<int>)
  {
    listenfd >= 0 && Separate(cs) && listenfd !in Live(cs) && allset == {listenfd} + Live(cs)
  }

  ghost predicate Bounded(listenfd: int, cs: seq<int>, maxi: int, maxfd: int)
  {
    && -1 <= maxi < |cs|
    && listenfd <= maxfd
    && forall i :: 0 <= i < |cs| && cs[i] >= 0 ==> i <= maxi && cs[i] <= maxfd
  }

  /** Every accepted connection is in the table or was closed, once. */
  ghost predicate Accounted(cs: seq<int>, accepted: seq<int>, closed: seq<int>)
  {
    multiset(accepted) == multiset(closed) + multiset(Live(cs))
  }

  /** The descriptors that the log says were closed. */
  function ClosedIn(log: seq<Event>): seq<int>
  {
    if log == [] then []
    else ClosedIn(log[..|log| - 1]) + if log[|log| - 1].Closed? then [log[|log| - 1].fd] else []
  }

  lemma {:induction false} ClosedSnoc(log: seq<Event>, e: Event)
    ensures ClosedIn(log + [e]) == ClosedIn(log) + if e.Closed? then [e.fd] else []
  {
    assert (log + [e])[..|log|] == log;
  }

  lemma {:induction false} LiveAdded(cs: seq<int>, i: nat, fd: int)
    requires i < |cs| && cs[i] < 0 && fd >= 0
    ensures Live(cs[i := fd]) == Live(cs) + {fd}
  {
    var cs' := cs[i := fd];
    forall c | c in Live(cs) + {fd} ensures c in Live(cs') {
      if c == fd {
        assert cs'[i] == c;
      } else {
        var j :| 0 <= j < |cs| && cs[j] >= 0 && cs[j] == c;
        assert cs'[j] == c;
      }
    }
  }

  lemma {:induction false} LiveRemoved(cs: seq<int>, i: nat)
    requires i < |cs| && cs[i] >= 0 && Separate(cs)
    ensures Live(cs[i := -1]) == Live(cs) - {cs[i]}
  {
    var cs' := cs[i := -1];
    forall c | c in Live(cs) && c != cs[i] ensures c in Live(cs') {
      var j :| 0 <= j < |cs| && cs[j] >= 0 && cs[j] == c;
      assert cs'[j] == c;
    }
    assert forall j :: 0 <= j < |cs| && j != i && cs[j] >= 0 ==> cs[j] != cs[i];
  }

  /** A new client in a free slot. */
  lemma {:induction false} Added(listenfd: int, cs: seq<int>, allset: set<int>, i: nat, fd: int)
    requires Watched(listenfd, cs, allset) && i < |cs| && cs[i] < 0 && fd >= 0 && fd !in allset
    ensures Watched(listenfd, cs[i := fd], allset + {fd}) && fd !in Live(cs)
  {
    LiveAdded(cs, i, fd);
    assert forall j :: 0 <= j < |cs| && cs[j] >= 0 ==> cs[j] in Live(cs);
    hide Live;
  }

  lemma {:induction false} Removed(listenfd: int, cs: seq<int>, allset: set<int>, i: nat)
    requires Watched(listenfd, cs, allset) && i < |cs| && cs[i] >= 0
    ensures Watched(listenfd, cs[i := -1], allset - {cs[i]}) && cs[i] in Live(cs) && Separate(cs)
  {
    LiveRemoved(cs, i);
    assert cs[i] in Live(cs);
    hide Live;
  }

  lemma {:induction false} BoundAdded(listenfd: int, cs: seq<int>, maxi: int, maxfd: int, i: nat, fd: int)
    requires Bounded(listenfd, cs, maxi, maxfd) && i < |cs|
    ensures Bounded(listenfd, cs[i := fd], if i > maxi then i else maxi, if fd > maxfd then fd else maxfd)
  {
  }

  lemma {:induction false} BoundRemoved(listenfd: int, cs: seq<int>, maxi: int, maxfd: int, i: nat)
    requires Bounded(listenfd, cs, maxi, maxfd) && i < |cs|
    ensures Bounded(listenfd, cs[i := -1], maxi, maxfd)
  {
  }

  lemma {:induction false} AccountAdded(cs: seq<int>, accepted: seq<int>, closed: seq<int>, i: nat, fd: int)
    requires Accounted(cs, accepted, closed) && i < |cs| && cs[i] < 0 && fd >= 0 && fd !in Live(cs)
    ensures Accounted(cs[i := fd], accepted + [fd], closed)
  {
    LiveAdded(cs, i, fd);
    hide Live;
    assert multiset(Live(cs) + {fd}) == multiset(Live(cs)) + multiset{fd};
  }

  lemma {:induction false} AccountRemoved(cs: seq<int>, accepted: seq<int>, closed: seq<int>, i: nat)
    requires Accounted(cs, accepted, closed) && i < |cs| && cs[i] >= 0 && Separate(cs) && cs[i] in Live(cs)
    ensures Accounted(cs[i := -1], accepted, closed + [cs[i]])
  {
    LiveRemoved(cs, i);
    hide Live;
    assert multiset(Live(cs) - {cs[i]}) + multiset{cs[i]} == multiset(Live(cs));
  }

  // ----- the countdown -----

  /** A slot whose client select reported. */
  function IsReady(ready: set<int>): int -> bool
  {
    c => c >= 0 && c in ready
  }

  /** The ready descriptors are counted by the slots that hold them. */
  lemma {:induction false} ReadySlots(cs: seq<int>, ready: set<int>)
    requires Separate(cs)
    ensures Tally(IsReady(ready), cs) == |ready * Live(cs)|
  {
    hide Live, Separate;
    if cs == [] {
      NobodyLive(cs);
    } else {
      var rest := cs[1..];
      SeparateHead(cs);
      ReadySlots(rest, ready);
      LiveHead(cs);
      if cs[0] >= 0 {
        OneMore(ready, Live(rest), cs[0]);
      } else {
        assert Live(rest) + {} == Live(rest);
      }
    }
  }

  lemma {:induction false} OneMore(ready: set<int>, live: set<int>, c: int)
    requires c !in live
    ensures |ready * (live + {c})| == |ready * live| + (if c in ready then 1 else 0)
  {
    if c in ready {
      assert ready * (live + {c}) == ready * live + {c};
    } else {
      assert ready * (live + {c}) == ready * live;
    }
  }

  lemma {:induction false} NobodyLive(cs: seq<int>)
    requires forall i :: 0 <= i < |cs| ==> cs[i] < 0
    ensures Live(cs) == {} && Separate(cs)
  {
  }

  lemma {:induction false} SeparateHead(cs: seq<int>)
    requires Separate(cs) && cs != []
    ensures Separate(cs[1..]) && (cs[0] >= 0 ==> cs[0] !in Live(cs[1..]))
  {
    var rest := cs[1..];
    assert forall i :: 0 <= i < |rest| ==> rest[i] == cs[i + 1];
  }

  lemma {:induction false} LiveHead(cs: seq<int>)
    requires cs != []
    ensures Live(cs) == Live(cs[1..]) + (if cs[0] >= 0 then {cs[0]} else {})
  {
    var rest := cs[1..];
    forall c | c in Live(cs) ensures c in Live(rest) + (if cs[0] >= 0 then {cs[0]} else {}) {
      var i :| 0 <= i < |cs| && cs[i] >= 0 && cs[i] == c;
      assert i > 0 ==> rest[i - 1] == c;
    }
    forall c | c in Live(rest) ensures c in Live(cs) {
      var i :| 0 <= i < |rest| && rest[i] >= 0 && rest[i] == c;
      assert cs[i + 1] == c;
    }
  }

  lemma {:induction false} CountdownStep(cs: seq<int>, i: nat, ready: set<int>)
    requires i < |cs|
    ensures Tally(IsReady(ready), cs[i..]) ==
            Tally(IsReady(ready), cs[i + 1..]) + (if cs[i] >= 0 && cs[i] in ready then 1 else 0)
  {
    assert cs[i..][1..] == cs[i + 1..];
  }

  // ----- what one scan does -----

  datatype Event = Echoed(fd: int, bytes: seq<int>) | Closed(fd: int)

  /** What read delivers on a ready descriptor: nothing is end of file. */
  type Input = int -> seq<int>

  function ServeOne(c: int, ready: set<int>, input: Input): seq<Event>
  {
    if c < 0 || c !in ready then [] else if input(c) == [] then [Closed(c)] else [Echoed(c, input(c))]
  }

  /** Every ready client, in the order of the table. */
  function ServeAll(cs: seq<int>, ready: set<int>, input: Input): seq<Event>
  {
    if cs == [] then [] else ServeOne(cs[0], ready, input) + ServeAll(cs[1..], ready, input)
  }

  function SlotAfter(c: int, ready: set<int>, input: Input): int
  {
    if c >= 0 && c in ready && input(c) == [] then -1 else c
  }

  /** Without ready clients there is nothing to serve. */
  lemma {:induction false} NothingLeft(cs: seq<int>, ready: set<int>, input: Input)
    requires Tally(IsReady(ready), cs) == 0
    ensures ServeAll(cs, ready, input) == []
    ensures forall i :: 0 <= i < |cs| ==> SlotAfter(cs[i], ready, input) == cs[i]
  {
    TallyPositive(IsReady(ready), cs);
    if cs != [] {
      assert cs[0] < 0 || cs[0] !in ready;
      NothingLeft(cs[1..], ready, input);
      forall i | 0 <= i < |cs| ensures SlotAfter(cs[i], ready, input) == cs[i] {
        assert i > 0 ==> cs[i] == cs[1..][i - 1];
      }
    }
  }

  /** Every ready client gets its event, and nobody else does. */
  lemma {:induction false} ServedExactlyTheReady(cs: seq<int>, ready: set<int>, input: Input, e: Event)
    ensures e in ServeAll(cs, ready, input) <==>
            e.fd in ready * Live(cs) && e == (if input(e.fd) == [] then Closed(e.fd) else Echoed(e.fd, input(e.fd)))
  {
    if cs != [] {
      ServedExactlyTheReady(cs[1..], ready, input, e);
      LiveHead(cs);
    }
  }

  /** Of all the events of a scan, a ready client has exactly one, and any other descriptor none. */
  lemma {:induction false} OneEventEach(cs: seq<int>, ready: set<int>, input: Input, fd: int)
    requires Separate(cs)
    ensures Tally((e: Event) => e.fd == fd, ServeAll(cs, ready, input)) == One(fd in ready * Live(cs))
  {
    hide Live, Separate;
    if cs == [] {
      NobodyLive(cs);
    } else {
      SeparateHead(cs);
      LiveHead(cs);
      var p := (e: Event) => e.fd == fd;
      OneEventEach(cs[1..], ready, input, fd);
      TallyConcat(p, ServeOne(cs[0], ready, input), ServeAll(cs[1..], ready, input));
      assert Tally(p, ServeOne(cs[0], ready, input)) == One(cs[0] >= 0 && cs[0] in ready && cs[0] == fd);
      assert cs[0] < 0 ==> Live(cs) == Live(cs[1..]);
    }
  }

  class Server {
    const listenfd: int
    const client: array<int>
    var maxi: int
    var maxfd: int
    var allset: set<int>
    // Histories: what was read and written, the descriptors accepted, and those closed.
    ghost var log: seq<Event>
    ghost var accepted: seq<int>
    ghost var closed: seq<int>

    ghost predicate Valid()
      reads this, client
    {
      && client.Length == FD_SETSIZE
      && Watched(listenfd, client[..], allset)
      && Bounded(listenfd, client[..], maxi, maxfd)
      && Accounted(client[..], accepted, closed)
      && closed == ClosedIn(log)
    }

    constructor (listenfd: int)
      requires listenfd >= 0
      ensures Valid() && fresh(client) && this.listenfd == listenfd && allset == {listenfd} && log == []
    {
      this.listenfd := listenfd;
      client := new int[FD_SETSIZE](_ => -1);
      maxfd, maxi, allset := listenfd, -1, {listenfd};
      log, accepted, closed := [], [], [];
      new;
      NobodyLive(client[..]);
      hide Live, Separate;
    }

    /** Lines 39-60: a new client takes the first free slot. `ok` is false for "too many clients". */
    method Accept(connfd: int) returns (ok: bool, ghost slot: nat)
      requires Valid() && connfd >= 0 && connfd !in allset
      modifies this`maxi, this`maxfd, this`allset, this`accepted, client
      ensures ok ==> Valid() && allset == old(allset) + {connfd} && accepted == old(accepted) + [connfd]
      ensures ok ==> slot < FD_SETSIZE && old(client[slot]) < 0 && client[..] == old(client[..])[slot := connfd]
      ensures ok ==> forall j :: 0 <= j < slot ==> old(client[j]) >= 0
      ensures !ok ==> client[..] == old(client[..]) && forall j :: 0 <= j < FD_SETSIZE ==> old(client[j]) >= 0
    {
      hide Watched, Accounted, Bounded;
      ghost var was := client[..];
      var i := 0;
      while i < FD_SETSIZE && client[i] >= 0
        invariant 0 <= i <= FD_SETSIZE
        invariant forall j :: 0 <= j < i ==> client[j] >= 0
      {
        i := i + 1;
      }
      slot := i;
      if i == FD_SETSIZE {
        ok := false;
        return;
      }
      BoundAdded(listenfd, was, maxi, maxfd, i, connfd);
      Added(listenfd, was, allset, i, connfd);
      AccountAdded(was, accepted, closed, i, connfd);
      client[i] := connfd;
      assert client[..] == was[i := connfd];
      allset := allset + {connfd};
      if connfd > maxfd {
        maxfd := connfd;
      }
      if i > maxi {
        maxi := i;
      }
      accepted := accepted + [connfd];
      ok := true;
    }

    /** Lines 69-77 for slot i, whose descriptor is ready. */
    method ServeSlot(i: nat, input: Input)
      requires Valid() && i < FD_SETSIZE && client[i] >= 0
      modifies this`allset, this`log, this`closed, client
      ensures Valid() && log == old(log) + ServeOne(old(client[i]), {old(client[i])}, input)
      ensures client[..] == old(client[..])[i := SlotAfter(old(client[i]), {old(client[i])}, input)]
    {
      hide Watched, Accounted, Bounded;
      var sockfd := client[i];
      ghost var was := client[..];
      if input(sockfd) == [] {
        Removed(listenfd, was, allset, i);
        BoundRemoved(listenfd, was, maxi, maxfd, i);
        AccountRemoved(was, accepted, closed, i);
        allset := allset - {sockfd};
        client[i] := -1;
        assert client[..] == was[i := -1];
        ClosedSnoc(log, Closed(sockfd));
        closed := closed + [sockfd];
        log := log + [Closed(sockfd)];
      } else {
        assert was == was[i := sockfd];
        ClosedSnoc(log, Echoed(sockfd, input(sockfd)));
        log := log + [Echoed(sockfd, input(sockfd))];
      }
    }

    /**
     * Lines 66-81: the scan with its countdown. It may stop before maxi, yet every ready client
     * has been served, in slot order, and the countdown is at zero.
     */
    method Scan(ready: set<int>, nready: int, input: Input) returns (left: int)
      requires Valid() && ready <= allset
      requires nready == |ready - {listenfd}| > 0
      modifies this`allset, this`log, this`closed, client
      ensures Valid() && left == 0
      ensures log == old(log) + ServeAll(old(client[..]), ready, input)
      ensures forall j :: 0 <= j < FD_SETSIZE ==> client[j] == SlotAfter(old(client[j]), ready, input)
    {
      hide Watched, Accounted, Bounded, Tally, ServeOne, SlotAfter, ServeAll, IsReady;
      ghost var cs := client[..];
      ReadyAtStart(listenfd, cs, allset, ready);
      NobodyBeyond(listenfd, cs, maxi, maxfd, ready);
      left := nready;
      var i := 0;
      ghost var served := 0;
      assert cs[0..] == cs;
      while i <= maxi
        invariant 0 <= i == served <= maxi + 1 && Valid()
        invariant left == Tally(IsReady(ready), cs[served..])
        invariant old(log) + ServeAll(cs, ready, input) == log + ServeAll(cs[served..], ready, input)
        invariant forall j :: 0 <= j < served ==> client[j] == SlotAfter(cs[j], ready, input)
        invariant forall j :: served <= j < FD_SETSIZE ==> client[j] == cs[j]
      {
        var sockfd := client[i];
        CountdownStep(cs, i, ready);
        ServeStep(cs, i, ready, input);
        ghost var rest := ServeAll(cs[i + 1..], ready, input);
        Regroup(log, ServeOne(sockfd, ready, input), rest);
        assert log + [] == log;
        served := i + 1;
        if sockfd >= 0 && sockfd in ready {
          ServeSlot(i, input);
          left := left - 1;
          if left <= 0 {
            break;
          }
        }
        i := i + 1;
      }
      NothingLeft(cs[served..], ready, input);
      forall j | served <= j < FD_SETSIZE ensures SlotAfter(cs[j], ready, input) == cs[j] {
        assert cs[served..][j - served] == cs[j];
      }
    }

    /** One turn of the server's loop: a new client first, then the clients that are ready. */
    method Turn(ready: set<int>, connfd: int, input: Input) returns (ok: bool)
      requires Valid() && ready <= allset && ready != {}
      requires connfd >= 0 && connfd !in allset
      modifies this`maxi, this`maxfd, this`allset, this`log, this`accepted, this`closed, client
      ensures ok <==> listenfd !in ready || !(forall i :: 0 <= i < FD_SETSIZE ==> old(client[i]) >= 0)
      ensures !ok ==> client[..] == old(client[..])
      ensures ok ==> Valid() && accepted == old(accepted) + (if listenfd in ready then [connfd] else [])
      ensures ok ==> log == old(log) + ServeAll(old(client[..]), ready, input)
    {
      hide Watched, Accounted, Bounded, ServeAll;
      var nready := |ready|;
      ghost var cs := client[..];
      ok := true;
      Split(ready, listenfd);
      if listenfd in ready {
        ghost var slot;
        ok, slot := Accept(connfd);
        if !ok {
          return;
        }
        nready := nready - 1;
        NewcomerWaits(listenfd, cs, old(allset), slot, connfd, ready, input);
        if nready <= 0 {
          NoClientReady(listenfd, cs, old(allset), ready, input);
          return;
        }
      }
      var left := Scan(ready, nready, input);
    }

    /**
     * The server for any number of turns, whatever select, accept and read deliver: it only ends
     * early because all slots are taken, and select always has something to watch.
     */
    method Run(turns: nat) returns (ok: bool)
      requires Valid()
      modifies this`maxi, this`maxfd, this`allset, this`log, this`accepted, this`closed, client
      ensures ok ==> Valid() && old(log) <= log && old(accepted) <= accepted
      ensures !ok ==> client.Length == FD_SETSIZE && forall i :: 0 <= i < FD_SETSIZE ==> client[i] >= 0
    {
      hide Accounted, Bounded, ServeAll;
      for k := 0 to turns
        invariant Valid() && old(log) <= log && old(accepted) <= accepted
      {
        assert listenfd in allset;
        assert {listenfd} <= allset && {listenfd} != {};
        var ready :| ready <= allset && ready != {};
        FreeDescriptor(allset);
        var connfd: int :| connfd >= 0 && connfd !in allset;
        var input: Input := *;
        ok := Turn(ready, connfd, input);
        if !ok {
          return;
        }
      }
      ok := true;
    }
  }

  lemma {:induction false} Split(ready: set<int>, fd: int)
    ensures |ready| == |ready - {fd}| + (if fd in ready then 1 else 0)
  {
    if fd in ready {
      assert ready == ready - {fd} + {fd};
    } else {
      assert ready == ready - {fd};
    }
  }

  /** A client accepted in this turn is not served in it. */
  lemma {:induction false} NewcomerWaits(listenfd: int, cs: seq<int>, allset: set<int>, slot: nat, fd: int,
                                         ready: set<int>, input: Input)
    requires Watched(listenfd, cs, allset) && ready <= allset && fd !in allset
    requires slot < |cs| && cs[slot] < 0
    ensures ServeAll(cs[slot := fd], ready, input) == ServeAll(cs, ready, input)
  {
    hide Watched;
    SameEvents(cs, cs[slot := fd], ready, input);
  }

  lemma {:induction false} SameEvents(cs: seq<int>, cs': seq<int>, ready: set<int>, input: Input)
    requires |cs| == |cs'|
    requires forall i :: 0 <= i < |cs| ==> ServeOne(cs[i], ready, input) == ServeOne(cs'[i], ready, input)
    ensures ServeAll(cs, ready, input) == ServeAll(cs', ready, input)
  {
    if cs != [] {
      SameEvents(cs[1..], cs'[1..], ready, input);
    }
  }

  /** No client is ready when select reported nothing but the listening socket. */
  lemma {:induction false} NoClientReady(listenfd: int, cs: seq<int>, allset: set<int>, ready: set<int>, input: Input)
    requires Watched(listenfd, cs, allset) && ready <= allset && |ready - {listenfd}| == 0
    ensures ServeAll(cs, ready, input) == []
  {
    ReadyAtStart(listenfd, cs, allset, ready);
    NothingLeft(cs, ready, input);
  }

  lemma {:induction false} NobodyBeyond(listenfd: int, cs: seq<int>, maxi: int, maxfd: int, ready: set<int>)
    requires Bounded(listenfd, cs, maxi, maxfd)
    ensures -1 <= maxi < |cs| && Tally(IsReady(ready), cs[maxi + 1..]) == 0
  {
    var rest := cs[maxi + 1..];
    forall i | 0 <= i < |rest| ensures !IsReady(ready)(rest[i]) {
      assert rest[i] == cs[maxi + 1 + i];
    }
    TallyNone(IsReady(ready), rest);
  }

  lemma {:induction false} ServeStep(cs: seq<int>, i: nat, ready: set<int>, input: Input)
    requires i < |cs|
    ensures ServeAll(cs[i..], ready, input) == ServeOne(cs[i], ready, input) + ServeAll(cs[i + 1..], ready, input)
    ensures if cs[i] >= 0 && cs[i] in ready
            then ServeOne(cs[i], ready, input) == ServeOne(cs[i], {cs[i]}, input) &&
                 SlotAfter(cs[i], ready, input) == SlotAfter(cs[i], {cs[i]}, input)
            else ServeOne(cs[i], ready, input) == [] && SlotAfter(cs[i], ready, input) == cs[i]
  {
    assert cs[i..][1..] == cs[i + 1..];
  }

  lemma {:induction false} ReadyAtStart(listenfd: int, cs: seq<int>, allset: set<int>, ready: set<int>)
    requires Watched(listenfd, cs, allset) && ready <= allset
    ensures Tally(IsReady(ready), cs) == |ready - {listenfd}|
  {
    ReadySlots(cs, ready);
    assert ready - {listenfd} == ready * Live(cs);
  }
}
