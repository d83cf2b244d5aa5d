/**
 * The nonblocking web client: at most maxnconn connections at a time, one file per connection,
 * and a select loop that moves every file from connecting through reading to done.
 * Source: unpv13e/nonblock/web.c, start_connect.c, write_get_cmd.c.
 */
module WebScheduler {
  import opened Counting

  const MAXFILES := 20

  /** f_flags: 0, F_CONNECTING, F_READING or F_DONE; no two of them are ever set together. */
  datatype Flag = Unstarted | Connecting | Reading | Done

  datatype File = File(flag: Flag, fd: int)

  predicate IsUnstarted(f: File) { f.flag.Unstarted? }

  predicate IsConnecting(f: File) { f.flag.Connecting? }

  predicate IsActive(f: File) { f.flag.Connecting? || f.flag.Reading? }

  // ----- the counters -----

  ghost predicate Counted(files: seq<File>, nconn: int, nlefttoconn: int, nlefttoread: int)
  {
    && nlefttoconn == Tally(IsUnstarted, files)
    && nconn == Tally(IsActive, files)
    && nlefttoread == nlefttoconn + nconn
  }

  lemma {:induction false} FirstExists(files: seq<File>, nconn: int, nlefttoconn: int, nlefttoread: int)
    requires Counted(files, nconn, nlefttoconn, nlefttoread) && nlefttoconn > 0
    ensures exists i :: 0 <= i < |files| && IsUnstarted(files[i])
  {
    TallyPositive(IsUnstarted, files);
  }

  lemma {:induction false} CountStarted(files: seq<File>, i: nat, f: File, nconn: int, nlefttoconn: int,
                                        nlefttoread: int)
    requires Counted(files, nconn, nlefttoconn, nlefttoread) && i < |files| && IsUnstarted(files[i]) && IsActive(f)
    ensures Counted(files[i := f], nconn + 1, nlefttoconn - 1, nlefttoread)
  {
    Recount(files, i, f);
  }

  lemma {:induction false} CountMoved(files: seq<File>, i: nat, f: File, nconn: int, nlefttoconn: int, nlefttoread: int)
    requires Counted(files, nconn, nlefttoconn, nlefttoread) && i < |files| && IsActive(files[i]) && IsActive(f)
    ensures Counted(files[i := f], nconn, nlefttoconn, nlefttoread)
  {
    Recount(files, i, f);
  }

  lemma {:induction false} CountEnded(files: seq<File>, i: nat, f: File, nconn: int, nlefttoconn: int, nlefttoread: int)
    requires Counted(files, nconn, nlefttoconn, nlefttoread) && i < |files| && IsActive(files[i]) && f.flag.Done?
    ensures Counted(files[i := f], nconn - 1, nlefttoconn, nlefttoread - 1) && nconn > 0
  {
    Recount(files, i, f);
  }

  /** How the counters of unstarted and active files change with one file's flag. */
  lemma {:induction false} Recount(files: seq<File>, i: nat, f: File)
    requires i < |files|
    ensures var files' := files[i := f];
            && Tally(IsUnstarted, files') ==
               Tally(IsUnstarted, files) - (if IsUnstarted(files[i]) then 1 else 0) + (if IsUnstarted(f) then 1 else 0)
            && Tally(IsActive, files') ==
               Tally(IsActive, files) - (if IsActive(files[i]) then 1 else 0) + (if IsActive(f) then 1 else 0)
  {
    TallyUpdate(IsUnstarted, files, i, f);
    TallyUpdate(IsActive, files, i, f);
  }

  // ----- the descriptor sets -----

  function Fds(p: File -> bool, files: seq<File>): set<int>
  {
    set i | 0 <= i < |files| && p(files[i]) :: files[i].fd
  }

  /** Active files have descriptors of their own; a finished file's number may belong to another file. */
  ghost predicate Separate(files: seq<File>)
  {
    forall i, j :: 0 <= i < j < |files| && IsActive(files[i]) && IsActive(files[j]) ==> files[i].fd != files[j].fd
  }

  ghost predicate Watched(files: seq<File>, maxfd: int, rset: set<int>, wset: set<int>)
  {
    && Separate(files)
    && rset == Fds(IsActive, files)
    && wset == Fds(IsConnecting, files)
    && forall i :: 0 <= i < |files| && IsActive(files[i]) ==> files[i].fd <= maxfd
  }

  /** A file that starts, with a descriptor that no active file has. */
  lemma {:induction false} Started(p: File -> bool, files: seq<File>, i: nat, f: File)
    requires i < |files| && !p(files[i])
    ensures Fds(p, files[i := f]) == Fds(p, files) + (if p(f) then {f.fd} else {})
  {
    var files' := files[i := f];
    forall fd | fd in Fds(p, files) ensures fd in Fds(p, files') {
      var j :| 0 <= j < |files| && p(files[j]) && files[j].fd == fd;
      assert files'[j] == files[j];
    }
    if p(f) {
      assert p(files'[i]) && files'[i].fd == f.fd;
    }
  }

  /** A file that keeps its descriptor and its place in the set. */
  lemma {:induction false} Stayed(p: File -> bool, files: seq<File>, i: nat, f: File)
    requires i < |files| && p(files[i]) && p(f) && f.fd == files[i].fd
    ensures Fds(p, files[i := f]) == Fds(p, files)
  {
    var files' := files[i := f];
    forall j | 0 <= j < |files| ensures files'[j].fd == files[j].fd && p(files'[j]) == p(files[j]) {
    }
    forall fd ensures fd in Fds(p, files') <==> fd in Fds(p, files) {
      if fd in Fds(p, files) {
        var j :| 0 <= j < |files| && p(files[j]) && files[j].fd == fd;
        assert p(files'[j]) && files'[j].fd == fd;
      }
    }
  }

  /** A file that leaves the set; because descriptors are separate, nothing else leaves with it. */
  lemma {:induction false} Left(p: File -> bool, files: seq<File>, i: nat, f: File)
    requires i < |files| && p(files[i]) && !p(f)
    requires Separate(files) && forall j :: 0 <= j < |files| && p(files[j]) ==> IsActive(files[j])
    ensures Fds(p, files[i := f]) == Fds(p, files) - {files[i].fd}
  {
    var files' := files[i := f];
    forall fd | fd in Fds(p, files) && fd != files[i].fd ensures fd in Fds(p, files') {
      var j :| 0 <= j < |files| && p(files[j]) && files[j].fd == fd;
      assert files'[j] == files[j];
    }
    assert forall j :: 0 <= j < |files| && j != i && p(files[j]) ==> files[j].fd != files[i].fd;
  }

  /** start_connect: the new descriptor is nobody else's. */
  lemma {:induction false} WatchStarted(files: seq<File>, i: nat, f: File, maxfd: int, rset: set<int>, wset: set<int>)
    requires Watched(files, maxfd, rset, wset) && i < |files| && IsUnstarted(files[i])
    requires IsActive(f) && f.fd !in rset
    ensures Watched(files[i := f], if f.fd > maxfd then f.fd else maxfd, rset + {f.fd},
                    wset + (if IsConnecting(f) then {f.fd} else {}))
  {
    Started(IsActive, files, i, f);
    Started(IsConnecting, files, i, f);
    assert forall j :: 0 <= j < |files| && IsActive(files[j]) ==> files[j].fd in Fds(IsActive, files);
    hide Fds;
  }

  /** The connection is established. */
  lemma {:induction false} WatchConnected(files: seq<File>, i: nat, maxfd: int, rset: set<int>, wset: set<int>)
    requires Watched(files, maxfd, rset, wset) && i < |files| && IsConnecting(files[i])
    ensures Watched(files[i := File(Reading, files[i].fd)], maxfd, rset, wset - {files[i].fd})
    ensures files[i].fd in rset && files[i].fd <= maxfd
  {
    Stayed(IsActive, files, i, File(Reading, files[i].fd));
    Left(IsConnecting, files, i, File(Reading, files[i].fd));
    assert files[i].fd in Fds(IsActive, files);
    hide Fds;
  }

  /** The reply has ended. */
  lemma {:induction false} WatchEnded(files: seq<File>, i: nat, maxfd: int, rset: set<int>, wset: set<int>)
    requires Watched(files, maxfd, rset, wset) && i < |files| && files[i].flag.Reading?
    ensures Watched(files[i := File(Done, files[i].fd)], maxfd, rset - {files[i].fd}, wset)
  {
    Left(IsActive, files, i, File(Done, files[i].fd));
    Started(IsConnecting, files, i, File(Done, files[i].fd));
    hide Fds;
  }

  // ----- progress -----

  /** The steps file f has before it, with `left` bytes of its reply still to be read. */
  function Weight(f: File, left: nat): nat
  {
    left + match f.flag case Unstarted => 3 case Connecting => 2 case Reading => 1 case Done => 0
  }

  function Weights(files: seq<File>, reply: seq<nat>): (ws: seq<nat>)
    requires |files| == |reply|
    ensures |ws| == |files|
  {
    seq(|files|, i requires 0 <= i < |files| => Weight(files[i], reply[i]))
  }

  function Work(files: seq<File>, reply: seq<nat>): nat
    requires |files| == |reply|
  {
    Sum(Weights(files, reply))
  }

  lemma {:induction false} WorkUpdate(files: seq<File>, reply: seq<nat>, i: nat, f: File, left: nat)
    requires |files| == |reply| && i < |files|
    ensures Work(files[i := f], reply[i := left]) == Work(files, reply) - Weight(files[i], reply[i]) + Weight(f, left)
  {
    SumUpdate(Weights(files, reply), i, Weight(f, left));
    assert Weights(files[i := f], reply[i := left]) == Weights(files, reply)[i := Weight(f, left)];
  }

  /** Whether the scan has something to do for f. */
  predicate Ready(f: File, rs: set<int>, ws: set<int>)
  {
    (f.flag.Connecting? && (f.fd in rs || f.fd in ws)) || (f.flag.Reading? && f.fd in rs)
  }

  /** What one pass makes of one file, given select's answer and the bytes left of its reply. */
  predicate Served(f: File, left: nat, rs: set<int>, ws: set<int>, f': File, left': nat)
  {
    if !Ready(f, rs, ws) then f' == f && left' == left
    else if f.flag.Connecting? then f' == File(Reading, f.fd) && left' == left
    else if left == 0 then f' == File(Done, f.fd) && left' == 0
    else f' == f && left' < left
  }

  /** Whatever select reports, the scan serves at least one file. */
  lemma {:induction false} SomeReady(files: seq<File>, maxfd: int, rset: set<int>, wset: set<int>,
                                     rs: set<int>, ws: set<int>)
    requires Watched(files, maxfd, rset, wset) && rs <= rset && ws <= wset && rs + ws != {}
    ensures exists i :: 0 <= i < |files| && Ready(files[i], rs, ws)
  {
    if rs != {} {
      var fd :| fd in rs;
      var i :| 0 <= i < |files| && IsActive(files[i]) && files[i].fd == fd;
      assert Ready(files[i], rs, ws);
    } else {
      var fd :| fd in ws;
      var i :| 0 <= i < |files| && IsConnecting(files[i]) && files[i].fd == fd;
      assert Ready(files[i], rs, ws);
    }
  }

  /** A pass that served some file leaves less to do. */
  lemma {:induction false} LessWork(files: seq<File>, left: seq<nat>, files': seq<File>, left': seq<nat>,
                                    rs: set<int>, ws: set<int>)
    requires |files| == |left| == |files'| == |left'|
    requires forall i :: 0 <= i < |files| ==> Served(files[i], left[i], rs, ws, files'[i], left'[i])
    requires exists i :: 0 <= i < |files| && Ready(files[i], rs, ws)
    ensures Work(files', left') < Work(files, left)
  {
    var a, b := Weights(files', left'), Weights(files, left);
    var i :| 0 <= i < |files| && Ready(files[i], rs, ws);
    assert a[i] < b[i];
    SumLess(a, b);
  }

  /** The files that were read to the end, in that order, and the bytes nobody has read yet. */
  ghost predicate Fetched(files: seq<File>, total: seq<nat>, reply: seq<nat>, ended: seq<nat>)
  {
    && |files| == |total| == |reply|
    && (forall i, j :: 0 <= i < j < |ended| ==> ended[i] != ended[j])
    && (forall i: nat :: i in ended <==> i < |files| && files[i].flag.Done?)
    && (forall i :: 0 <= i < |files| && files[i].flag.Done? ==> reply[i] == 0)
    && (forall i :: 0 <= i < |files| && !files[i].flag.Done? && !files[i].flag.Reading? ==> reply[i] == total[i])
  }

  /** Files are started in the order of the command line. */
  ghost predicate InOrder(files: seq<File>)
  {
    forall i, j :: 0 <= i < j < |files| && IsUnstarted(files[i]) ==> IsUnstarted(files[j])
  }

  /** A file that starts, or whose connection is established. */
  lemma {:induction false} FetchMoved(files: seq<File>, i: nat, f: File, total: seq<nat>, reply: seq<nat>,
                                      ended: seq<nat>)
    requires Fetched(files, total, reply, ended) && i < |files|
    requires IsUnstarted(files[i]) || IsConnecting(files[i])
    requires IsActive(f)
    ensures Fetched(files[i := f], total, reply, ended)
  {
  }

  lemma {:induction false} FetchRead(files: seq<File>, i: nat, left: nat, total: seq<nat>, reply: seq<nat>,
                                     ended: seq<nat>)
    requires Fetched(files, total, reply, ended) && i < |files| && files[i].flag.Reading?
    ensures Fetched(files, total, reply[i := left], ended)
  {
  }

  lemma {:induction false} FetchEnded(files: seq<File>, i: nat, fd: int, total: seq<nat>, reply: seq<nat>,
                                      ended: seq<nat>)
    requires Fetched(files, total, reply, ended) && i < |files| && files[i].flag.Reading? && reply[i] == 0
    ensures Fetched(files[i := File(Done, fd)], total, reply, ended + [i])
  {
    var ended' := ended + [i];
    assert i !in ended;
    forall j, k | 0 <= j < k < |ended'| ensures ended'[j] != ended'[k] {
      assert ended[j] in ended;
    }
  }

  lemma {:induction false} OrderStarted(files: seq<File>, i: nat, f: File)
    requires InOrder(files) && i < |files| && IsUnstarted(files[i]) && IsActive(f)
    requires forall j :: 0 <= j < i ==> !IsUnstarted(files[j])
    ensures InOrder(files[i := f])
  {
  }

  lemma {:induction false} OrderKept(files: seq<File>, i: nat, f: File)
    requires InOrder(files) && i < |files| && !IsUnstarted(files[i]) && !IsUnstarted(f)
    ensures InOrder(files[i := f])
  {
  }

  /** connect on a nonblocking socket: done at once, in progress, or an error. */
  datatype Connect = Immediate | InProgress | Refused

  datatype Status = Complete | Died | WaitsForNothing

  class Web {
    const maxnconn: int
    const file: array<File>
    var nconn: int
    var nlefttoconn: int
    var nlefttoread: int
    var maxfd: int
    var rset: set<int>
    var wset: set<int>
    // The servers' side: the length of each reply and the bytes of it not yet read.
    const total: seq<nat>
    var reply: seq<nat>
    ghost var ended: seq<nat>

    ghost predicate Valid()
      reads this, file
    {
      && file.Length == |total| == |reply| <= MAXFILES
      && Counted(file[..], nconn, nlefttoconn, nlefttoread)
      && (nconn <= maxnconn || nconn == 0)
      && Watched(file[..], maxfd, rset, wset)
      && Fetched(file[..], total, reply, ended)
      && InOrder(file[..])
    }

    constructor (maxnconn: int, replies: seq<nat>)
      ensures Valid() && fresh(file) && this.maxnconn == maxnconn
      ensures file.Length == if |replies| < MAXFILES then |replies| else MAXFILES
      ensures forall i :: 0 <= i < file.Length ==> IsUnstarted(file[i])
      ensures total == replies[..file.Length] && ended == []
    {
      var nfiles := if |replies| < MAXFILES then |replies| else MAXFILES;
      this.maxnconn := maxnconn;
      file := new File[nfiles](_ => File(Unstarted, 0));
      total, reply, ended := replies[..nfiles], replies[..nfiles], [];
      rset, wset, maxfd := {}, {}, -1;
      nlefttoread, nlefttoconn, nconn := nfiles, nfiles, 0;
      new;
      TallyAll(IsUnstarted, file[..]);
      TallyNone(IsActive, file[..]);
    }

    /** write_get_cmd, after the request has been written. */
    method WriteGetCmd(i: nat)
      requires i < file.Length
      modifies this`rset, this`maxfd, file
      ensures file[..] == old(file[..])[i := File(Reading, old(file[i].fd))]
      ensures rset == old(rset) + {old(file[i].fd)}
      ensures maxfd == if old(file[i].fd) > old(maxfd) then old(file[i].fd) else old(maxfd)
    {
      file[i] := file[i].(flag := Reading);
      rset := rset + {file[i].fd};
      if file[i].fd > maxfd {
        maxfd := file[i].fd;
      }
    }

    /** start_connect, with the descriptor that socket returns and the outcome of connect. */
    method StartConnect(i: nat, fd: int, outcome: Connect) returns (ok: bool)
      requires i < file.Length
      modifies this`rset, this`wset, this`maxfd, file
      ensures ok <==> !outcome.Refused?
      ensures ok ==> file[..] == old(file[..])[i := File(if outcome.InProgress? then Connecting else Reading, fd)]
      ensures ok ==> rset == old(rset) + {fd} && wset == old(wset) + (if outcome.InProgress? then {fd} else {})
      ensures ok ==> maxfd == if fd > old(maxfd) then fd else old(maxfd)
    {
      file[i] := file[i].(fd := fd);
      match outcome {
        case Refused =>
          return false;
        case InProgress =>
          file[i] := file[i].(flag := Connecting);
          rset := rset + {fd};
          wset := wset + {fd};
          if fd > maxfd {
            maxfd := fd;
          }
        case Immediate =>
          WriteGetCmd(i);
      }
      ok := true;
    }

    /** Lines 35-42: start the first file that has not been started. "nothing found" cannot happen. */
    method StartNext(reliable: bool) returns (ok: bool, ghost i: nat)
      requires Valid() && nconn < maxnconn && nlefttoconn > 0
      modifies this`nconn, this`nlefttoconn, this`rset, this`wset, this`maxfd, file
      ensures reliable ==> ok
      ensures ok ==> Valid() && nconn == old(nconn) + 1 && nlefttoconn == old(nlefttoconn) - 1
      ensures ok ==> i < file.Length && file[..] == old(file[..])[i := file[i]]
      ensures ok ==> old(IsUnstarted(file[i])) && IsActive(file[i]) && file[i].fd !in old(rset)
    {
      hide Counted, Watched, Fetched, InOrder;
      FirstExists(file[..], nconn, nlefttoconn, nlefttoread);
      var k := 0;
      while k < file.Length && !file[k].flag.Unstarted?
        invariant 0 <= k <= file.Length
        invariant forall j :: 0 <= j < k ==> !IsUnstarted(file[j])
      {
        k := k + 1;
      }
      if k == file.Length {
        assert false;
      }
      i := k;
      var now: bool := *;
      var refused: bool := *;
      var outcome := if refused && !reliable then Refused else if now then Immediate else InProgress;
      FreeDescriptor(rset);
      var fd: int :| fd >= 0 && fd !in rset;
      ghost var was := file[..];
      ghost var f := File(if outcome.InProgress? then Connecting else Reading, fd);
      WatchStarted(was, i, f, maxfd, rset, wset);
      FetchMoved(was, i, f, total, reply, ended);
      OrderStarted(was, i, f);
      CountStarted(was, i, f, nconn, nlefttoconn, nlefttoread);
      ok := StartConnect(k, fd, outcome);
      nconn := nconn + 1;
      nlefttoconn := nlefttoconn - 1;
    }

    /** Lines 33-43: start connections up to the limit. Only a failing connect ends it early. */
    method Fill(reliable: bool) returns (ok: bool)
      requires Valid()
      modifies this`nconn, this`nlefttoconn, this`rset, this`wset, this`maxfd, file
      ensures reliable ==> ok
      ensures ok ==> Valid() && (nconn >= maxnconn || nlefttoconn == 0)
      ensures ok ==> Work(file[..], reply) <= old(Work(file[..], reply))
      ensures ok ==> forall j :: 0 <= j < file.Length && !old(IsUnstarted(file[j])) ==> file[j] == old(file[j])
      ensures ok ==> nlefttoread == old(nlefttoread) && (nconn == 0 <==> maxnconn <= 0 || nlefttoread == 0)
    {
      hide Watched, Fetched, InOrder, Work, Tally;
      while nconn < maxnconn && nlefttoconn > 0
        invariant Valid()
        invariant Work(file[..], reply) <= old(Work(file[..], reply))
        invariant forall j :: 0 <= j < file.Length && !old(IsUnstarted(file[j])) ==> file[j] == old(file[j])
        decreases nlefttoconn
      {
        ghost var was := file[..];
        ghost var i;
        ok, i := StartNext(reliable);
        if !ok {
          return;
        }
        WorkUpdate(was, reply, i, file[i], reply[i]);
        assert reply[i := reply[i]] == reply;
      }
      ok := true;
    }

    /** Lines 54-65: the connection of file i is established. */
    method Establish(i: nat)
      requires Valid() && i < file.Length && file[i].flag.Connecting?
      modifies this`rset, this`wset, this`maxfd, file
      ensures Valid() && file[..] == old(file[..])[i := File(Reading, old(file[i].fd))]
    {
      hide Counted, Watched, Fetched, InOrder;
      ghost var was := file[..];
      ghost var f := File(Reading, file[i].fd);
      WatchConnected(was, i, maxfd, rset, wset);
      CountMoved(was, i, f, nconn, nlefttoconn, nlefttoread);
      FetchMoved(was, i, f, total, reply, ended);
      OrderKept(was, i, f);
      ghost var open := rset;
      wset := wset - {file[i].fd};
      WriteGetCmd(i);
      assert rset == open;
    }

    /** Lines 67-77: read from file i once, at most to the end of its reply. */
    method ReadOnce(i: nat)
      requires Valid() && i < file.Length && file[i].flag.Reading?
      modifies this`nconn, this`nlefttoread, this`rset, this`reply, this`ended, file
      ensures Valid() && nlefttoread <= old(nlefttoread)
      ensures if old(reply[i]) == 0
              then file[..] == old(file[..])[i := File(Done, old(file[i].fd))] && reply == old(reply) &&
                   ended == old(ended) + [i]
              else file[..] == old(file[..]) && reply == old(reply)[i := reply[i]] && reply[i] < old(reply[i]) &&
                   ended == old(ended)
    {
      hide Counted, Watched, Fetched, InOrder;
      ghost var was := file[..];
      if reply[i] == 0 {
        ghost var f := File(Done, file[i].fd);
        WatchEnded(was, i, maxfd, rset, wset);
        CountEnded(was, i, f, nconn, nlefttoconn, nlefttoread);
        FetchEnded(was, i, file[i].fd, total, reply, ended);
        OrderKept(was, i, f);
        rset := rset - {file[i].fd};
        file[i] := file[i].(flag := Done);
        nconn := nconn - 1;
        nlefttoread := nlefttoread - 1;
        ended := ended + [i];
        assert file[..] == was[i := f];
      } else {
        var n: nat :| 1 <= n <= reply[i];
        FetchRead(was, i, reply[i] - n, total, reply, ended);
        reply := reply[i := reply[i] - n];
        assert file[..] == was;
      }
    }

    /** Lines 50-78 for file i: finish its connection or read from it. A failing write or read ends the program. */
    method Serve(i: nat, rs: set<int>, ws: set<int>, reliable: bool) returns (ok: bool)
      requires Valid() && i < file.Length
      modifies this`nconn, this`nlefttoread, this`rset, this`wset, this`maxfd, this`reply, this`ended, file
      ensures reliable ==> ok
      ensures ok ==> Valid()
      ensures ok ==> nlefttoread <= old(nlefttoread) && Served(old(file[i]), old(reply[i]), rs, ws, file[i], reply[i])
      ensures ok ==> file[..] == old(file[..])[i := file[i]] && reply == old(reply)[i := reply[i]]
      ensures ok ==> ended == old(ended) + (if file[i].flag.Done? && !old(file[i]).flag.Done? then [i] else [])
    {
      hide Counted, Watched, Fetched, InOrder;
      ghost var was := file[..];
      assert was[i := was[i]] == was && reply[i := reply[i]] == reply;
      var broken: bool := *;
      ok := reliable || !broken;
      if file[i].flag.Unstarted? || file[i].flag.Done? {
        return true;
      }
      var fd := file[i].fd;
      if file[i].flag.Connecting? && (fd in rs || fd in ws) {
        // An error that getsockopt reports is printed and has no other effect.
        if ok {
          Establish(i);
        }
      } else if file[i].flag.Reading? && fd in rs {
        if ok {
          ReadOnce(i);
        }
      } else {
        ok := true;
      }
    }

    /** Lines 49-79: every file that select reported is served once, on the descriptor it had. */
    method Scan(rs: set<int>, ws: set<int>, reliable: bool) returns (ok: bool)
      requires Valid()
      modifies this`nconn, this`nlefttoread, this`rset, this`wset, this`maxfd, this`reply, this`ended, file
      ensures reliable ==> ok
      ensures ok ==> Valid() && nlefttoread <= old(nlefttoread)
      ensures ok ==> forall i :: 0 <= i < file.Length ==>
                       Served(old(file[i]), old(reply[i]), rs, ws, file[i], reply[i])
      ensures ok ==> old(ended) <= ended
    {
      hide Counted, Watched, Fetched, InOrder, Served;
      var i := 0;
      while i < file.Length
        invariant 0 <= i <= file.Length && Valid() && old(ended) <= ended
        invariant nlefttoread <= old(nlefttoread)
        invariant forall j :: 0 <= j < i ==> Served(old(file[j]), old(reply[j]), rs, ws, file[j], reply[j])
        invariant forall j :: i <= j < file.Length ==> file[j] == old(file[j]) && reply[j] == old(reply[j])
      {
        ok := Serve(i, rs, ws, reliable);
        if !ok {
          return;
        }
        i := i + 1;
      }
      ok := true;
    }

    /** Lines 32-80, with everything that select may answer. */
    method Fetch(reliable: bool) returns (status: Status)
      requires Valid()
      modifies this`nconn, this`nlefttoconn, this`nlefttoread, this`rset, this`wset, this`maxfd, this`reply, this`ended,
               file
      ensures reliable ==> !status.Died?
      ensures status.WaitsForNothing? ==> maxnconn <= 0 && old(nlefttoread) > 0
      ensures !status.Died? && maxnconn <= 0 && old(nlefttoread) > 0 ==> status.WaitsForNothing?
      ensures status.Complete? ==> Valid() && rset == wset == {} && nconn == nlefttoconn == nlefttoread == 0
      ensures status.Complete? ==> OnceEach(ended, file.Length)
      ensures status.Complete? ==> forall i :: 0 <= i < file.Length ==> file[i].flag.Done? && reply[i] == 0
    {
      hide Counted, Watched, Fetched, InOrder, Work, Served;
      while nlefttoread > 0
        invariant Valid()
        invariant nlefttoread <= old(nlefttoread)
        invariant maxnconn <= 0 ==> nlefttoread == old(nlefttoread)
        decreases Work(file[..], reply)
      {
        var ok := Fill(reliable);
        if !ok {
          return Died;
        }
        SomeoneToWaitFor(file[..], maxfd, rset, wset, nconn, nlefttoconn, nlefttoread);
        if rset == {} {
          return WaitsForNothing;
        }
        var rs, ws :| rs <= rset && ws <= wset && rs + ws != {};
        SomeReady(file[..], maxfd, rset, wset, rs, ws);
        ghost var files, left := file[..], reply;
        ok := Scan(rs, ws, reliable);
        if !ok {
          return Died;
        }
        LessWork(files, left, file[..], reply, rs, ws);
      }
      AllDone(file[..], total, reply, ended, nconn, nlefttoconn, nlefttoread);
      SomeoneToWaitFor(file[..], maxfd, rset, wset, nconn, nlefttoconn, nlefttoread);
      status := Complete;
    }
  }

  /** A limit of 0 and one file: the program waits in select for nothing. */
  method LimitZero() returns (status: Status)
    ensures status.WaitsForNothing?
  {
    var web := new Web(0, [1]);
    CountUnstarted(web.file[..], web.nconn, web.nlefttoconn, web.nlefttoread);
    status := web.Fetch(true);
  }

  lemma {:induction false} CountUnstarted(files: seq<File>, nconn: int, nlefttoconn: int, nlefttoread: int)
    requires Counted(files, nconn, nlefttoconn, nlefttoread) && exists i :: 0 <= i < |files| && IsUnstarted(files[i])
    ensures nlefttoread > 0
  {
    TallyPositive(IsUnstarted, files);
  }

  /** select has descriptors to wait for if and only if connections are open. */
  lemma {:induction false} SomeoneToWaitFor(files: seq<File>, maxfd: int, rset: set<int>, wset: set<int>,
                                            nconn: int, nlefttoconn: int, nlefttoread: int)
    requires Watched(files, maxfd, rset, wset)
    requires Counted(files, nconn, nlefttoconn, nlefttoread)
    ensures rset == {} <==> nconn == 0
    ensures wset <= rset
  {
    TallyPositive(IsActive, files);
    if i :| 0 <= i < |files| && IsActive(files[i]) {
      assert files[i].fd in rset;
    }
    forall fd | fd in wset ensures fd in rset {
      var i :| 0 <= i < |files| && IsConnecting(files[i]) && files[i].fd == fd;
      assert IsActive(files[i]);
    }
  }

  /** When nothing is left to read, every file is done and its whole reply has been read. */
  lemma {:induction false} AllDone(files: seq<File>, total: seq<nat>, reply: seq<nat>, ended: seq<nat>,
                                   nconn: int, nlefttoconn: int, nlefttoread: int)
    requires Counted(files, nconn, nlefttoconn, nlefttoread) && Fetched(files, total, reply, ended) && nlefttoread <= 0
    ensures nconn == 0 && nlefttoconn == 0 && nlefttoread == 0
    ensures forall i :: 0 <= i < |files| ==> files[i].flag.Done? && reply[i] == 0
    ensures OnceEach(ended, |files|)
  {
    TallyPositive(IsUnstarted, files);
    TallyPositive(IsActive, files);
    forall i | 0 <= i < |files| ensures files[i].flag.Done? {
      assert !IsUnstarted(files[i]) && !IsActive(files[i]);
    }
  }

  /** The numbers below n, each once. */
  ghost predicate OnceEach(xs: seq<nat>, n: nat)
  {
    && (forall i: nat :: i in xs <==> i < n)
    && forall i, j :: 0 <= i < j < |xs| ==> xs[i] != xs[j]
  }
}
