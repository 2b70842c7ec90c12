/**
 * Polling for listening ports: the mark-and-sweep table of known sockets on Linux
 * (portlist/portlist_linux.go) and the change detector around it (portlist/poller.go).
 */
module PortPoller {
  import opened Bytes
  import opened Order
  import opened PortList

  /** What is known of one socket, keyed by its inode string. */
  datatype Meta = Meta(port: Port, pid: int, keep: bool, needsProcName: bool)

  type Known = map<string, Meta>

  /** One row of a /proc/net file: a listener, a row passed over, or one that cannot be parsed. */
  datatype Row = Listener(inode: string, port: Uint16) | OtherRow | BadRow

  /** A file that cannot be rewound or has no header, or one with its rows. */
  datatype File = Unreadable | File(proto: string, rows: seq<Row>)

  /** Names found by walking /proc, and whether the walk succeeded. */
  datatype Lookup = Lookup(found: map<string, (string, int)>, ok: bool)

  const MAX_ROWS: nat := 1_000_000

  // ---- What a scan sees ----

  datatype Sight = Saw(inode: string, proto: string, port: Uint16) | Passed | Broken

  function SightOf(proto: string, row: Row): Sight {
    match row
    case Listener(inode, port) => Saw(inode, proto, port)
    case OtherRow => Passed
    case BadRow => Broken
  }

  /** Reading stops at the row that reaches the bound. */
  function ReadRows(rows: seq<Row>): seq<Row> {
    if |rows| < MAX_ROWS then rows else rows[..MAX_ROWS - 1]
  }

  function RowSights(proto: string, rows: seq<Row>): (r: seq<Sight>)
    ensures |r| == |rows|
    ensures forall i :: 0 <= i < |rows| ==> r[i] == SightOf(proto, rows[i])
  {
    seq(|rows|, i requires 0 <= i < |rows| => SightOf(proto, rows[i]))
  }

  function FileSights(f: File): seq<Sight> {
    match f
    case Unreadable => [Broken]
    case File(proto, rows) => RowSights(proto, ReadRows(rows))
  }

  function Sights(files: seq<File>): seq<Sight> {
    if files == [] then [] else Sights(files[..|files| - 1]) + FileSights(files[|files| - 1])
  }

  predicate Intact(sights: seq<Sight>) {
    forall i :: 0 <= i < |sights| ==> sights[i] != Broken
  }

  /** Everything before the first failure. */
  function UntilBroken(sights: seq<Sight>): seq<Sight> {
    if sights == [] || sights[0] == Broken then [] else [sights[0]] + UntilBroken(sights[1..])
  }

  lemma {:induction false} UntilBrokenConcat(a: seq<Sight>, b: seq<Sight>)
    requires Intact(a)
    ensures UntilBroken(a + b) == a + UntilBroken(b)
  {
    if a == [] {
      assert a + b == b;
    } else {
      assert (a + b)[1..] == a[1..] + b;
      UntilBrokenConcat(a[1..], b);
      assert a == [a[0]] + a[1..];
    }
  }

  lemma {:induction false} StopsAtBroken(a: seq<Sight>, b: seq<Sight>)
    requires !Intact(a)
    ensures UntilBroken(a + b) == UntilBroken(a)
  {
    if a[0] != Broken {
      assert (a + b)[1..] == a[1..] + b;
      StopsAtBroken(a[1..], b);
    }
  }

  /** One sight further: either the scan breaks there, or one more is seen. */
  lemma SeeNext(known: Known, sights: seq<Sight>, n: nat)
    requires n < |sights| && Intact(sights[..n])
    ensures if sights[n] == Broken then !Intact(sights) && UntilBroken(sights) == sights[..n]
            else Intact(sights[..n + 1])
    ensures SeeAll(known, sights[..n + 1]) == See(SeeAll(known, sights[..n]), sights[n])
    ensures sights[n] == Broken ==> See(SeeAll(known, sights[..n]), sights[n]) == SeeAll(known, sights[..n])
  {
    assert sights[..n + 1][..n] == sights[..n];
    if sights[n] == Broken {
      assert sights == sights[..n] + sights[n..];
      UntilBrokenConcat(sights[..n], sights[n..]);
      assert sights[..n] + [] == sights[..n];
    }
  }

  lemma IntactAll(a: seq<Sight>)
    requires Intact(a)
    ensures UntilBroken(a) == a
  {
    UntilBrokenConcat(a, []);
    assert a + [] == a;
  }

  /** What the sights say is listening now. */
  function Listening(sights: seq<Sight>): set<string> {
    set i | 0 <= i < |sights| && sights[i].Saw? :: sights[i].inode
  }

  // ---- The table ----

  function Unmark(known: Known): Known {
    map i | i in known :: known[i].(keep := false)
  }

  function See(known: Known, sight: Sight): Known {
    if !sight.Saw? then known
    else if sight.inode in known then known[sight.inode := known[sight.inode].(keep := true)]
    else known[sight.inode := Meta(Port(sight.proto, sight.port, "", 0), 0, true, true)]
  }

  function SeeAll(known: Known, sights: seq<Sight>): Known {
    if sights == [] then known else See(SeeAll(known, sights[..|sights| - 1]), sights[|sights| - 1])
  }

  function Sweep(known: Known): Known {
    map i | i in known && known[i].keep :: known[i]
  }

  function Name(m: Meta, i: string, found: map<string, (string, int)>): Meta {
    if !m.needsProcName then m
    else if i !in found then m.(needsProcName := false)
    else m.(port := m.port.(process := found[i].0, pid := found[i].1), pid := found[i].1, needsProcName := false)
  }

  function NameAll(known: Known, found: map<string, (string, int)>): Known {
    map i | i in known :: Name(known[i], i, found)
  }

  /** A poll: a scan that fails partway leaves the table as it then is. */
  function AfterPoll(known: Known, files: seq<File>, lookup: Lookup): Known {
    var sights := Sights(files);
    var seen := SeeAll(Unmark(known), UntilBroken(sights));
    if Intact(sights) then NameAll(Sweep(seen), lookup.found) else seen
  }

  lemma {:induction false} SeeAllConcat(known: Known, a: seq<Sight>, b: seq<Sight>)
    ensures SeeAll(known, a + b) == SeeAll(SeeAll(known, a), b)
  {
    if b == [] {
      assert a + b == a;
    } else {
      assert (a + b)[..|a + b| - 1] == a + b[..|b| - 1];
      SeeAllConcat(known, a, b[..|b| - 1]);
    }
  }

  /** Seeing adds the listeners, marks exactly them, and alters nothing else. */
  lemma {:induction false} SeeAllOk(known: Known, sights: seq<Sight>)
    requires forall i :: i in known ==> !known[i].keep
    ensures var seen := SeeAll(known, sights);
            && seen.Keys == known.Keys + Listening(sights)
            && (forall i :: i in seen ==> (seen[i].keep <==> i in Listening(sights)))
            && (forall i :: i in known ==> seen[i].(keep := false) == known[i])
  {
    if sights != [] {
      var before, last := sights[..|sights| - 1], sights[|sights| - 1];
      SeeAllOk(known, before);
      assert Listening(sights) == Listening(before) + if last.Saw? then {last.inode} else {} by {
        assert sights == before + [last];
        ListeningConcat(before, [last]);
        assert Listening([last]) == if last.Saw? then {last.inode} else {} by {
          assert last.Saw? ==> [last][0].inode in Listening([last]);
        }
      }
    }
  }

  lemma ListeningConcat(a: seq<Sight>, b: seq<Sight>)
    ensures Listening(a + b) == Listening(a) + Listening(b)
  {
    forall i | i in Listening(a)
      ensures i in Listening(a + b)
    {
      var j :| 0 <= j < |a| && a[j].Saw? && a[j].inode == i;
      assert (a + b)[j] == a[j];
    }
    forall i | i in Listening(b)
      ensures i in Listening(a + b)
    {
      var j :| 0 <= j < |b| && b[j].Saw? && b[j].inode == i;
      assert (a + b)[|a| + j] == b[j];
    }
  }

  /**
   * After any poll whose scan succeeds, the table holds exactly the sockets listening now and no
   * entry waits for a name, whatever earlier polls, failed ones included, left in it.
   */
  lemma TableIsExact(known: Known, files: seq<File>, lookup: Lookup)
    requires Intact(Sights(files))
    ensures AfterPoll(known, files, lookup).Keys == Listening(Sights(files))
    ensures forall i :: i in AfterPoll(known, files, lookup) ==> !AfterPoll(known, files, lookup)[i].needsProcName
  {
    IntactAll(Sights(files));
    SeeAllOk(Unmark(known), Sights(files));
  }

  /**
   * Of a socket that stays in the table, the port and protocol never change; its name changes only
   * while one is wanted; and a name once settled is never wanted again.
   */
  lemma SocketsAreStable(known: Known, files: seq<File>, lookup: Lookup, i: string)
    requires i in known && i in AfterPoll(known, files, lookup)
    ensures var was, now := known[i], AfterPoll(known, files, lookup)[i];
            && now.port.proto == was.port.proto && now.port.port == was.port.port
            && (now.needsProcName ==> was.needsProcName)
            && (!was.needsProcName ==> now.port == was.port && now.pid == was.pid)
  {
    SeeAllOk(Unmark(known), UntilBroken(Sights(files)));
  }

  datatype Poll = Poll(files: seq<File>, lookup: Lookup)

  function RunPolls(known: Known, polls: seq<Poll>): Known {
    if polls == [] then known
    else AfterPoll(RunPolls(known, polls[..|polls| - 1]), polls[|polls| - 1].files, polls[|polls| - 1].lookup)
  }

  /** Over any run: as long as a socket stays in the table, a settled name stays settled. */
  lemma {:induction false} NamesStaySettled(known: Known, polls: seq<Poll>, i: string)
    requires forall n :: 0 <= n <= |polls| ==> i in RunPolls(known, polls[..n])
    requires !RunPolls(known, polls[..0])[i].needsProcName
    ensures i in RunPolls(known, polls) && i in known
    ensures !RunPolls(known, polls)[i].needsProcName && RunPolls(known, polls)[i].port == known[i].port
  {
    assert polls[..0] == [] && polls[..|polls|] == polls;
    if polls != [] {
      var before, p := polls[..|polls| - 1], polls[|polls| - 1];
      forall n | 0 <= n <= |before|
        ensures i in RunPolls(known, before[..n])
      {
        assert before[..n] == polls[..n];
      }
      assert before[..0] == [];
      NamesStaySettled(known, before, i);
      SocketsAreStable(RunPolls(known, before), p.files, p.lookup, i);
    }
  }

  // ---- The list reported ----

  /** `ps` holds the table's ports, in whatever order the map yields them. */
  ghost predicate Gathers(known: Known, ps: seq<Port>) {
    forall p :: p in ps <==> exists i :: i in known && known[i].port == p
  }

  ghost predicate Lists(known: Known, list: seq<Port>) {
    exists ps, q :: Gathers(known, ps) && SortResult(q, ps, LessThan) && list == Dedup(q)
  }

  /** The report depends on the table alone, not on map iteration order or the sort. */
  lemma ReportIsDetermined(known: Known, a: seq<Port>, b: seq<Port>)
    requires Lists(known, a) && Lists(known, b)
    ensures Faces(a) == Faces(b)
  {
    var ps, p :| Gathers(known, ps) && SortResult(p, ps, LessThan) && a == Dedup(p);
    var qs, q :| Gathers(known, qs) && SortResult(q, qs, LessThan) && b == Dedup(q);
    ResultIgnoresOrder(ps, qs, p, q);
  }

  /** Every listener whose pair is not the zero pair is reported, once, and nothing else is. */
  lemma ReportCovers(known: Known, list: seq<Port>, i: string)
    requires Lists(known, list) && i in known && !ZeroSlot(known[i].port)
    ensures exists j :: 0 <= j < |list| && SameSlot(list[j], known[i].port)
    ensures forall j :: 0 <= j < |list| ==> exists k :: k in known && known[k].port == list[j]
  {
    var ps, q :| Gathers(known, ps) && SortResult(q, ps, LessThan) && list == Dedup(q);
    SortKeepsMembers(q, ps);
    assert known[i].port in q;
    PairsCovered(q, known[i].port);
    DedupShape(q);
    assert forall j :: 0 <= j < |list| ==> list[j] in Dedup(q);
  }

  // ---- On Linux no socket has the zero pair, because every file has a protocol ----

  ghost predicate NamedProtocols(files: seq<File>) {
    forall i :: 0 <= i < |files| && files[i].File? ==> files[i].proto != ""
  }

  ghost predicate SeenProtocols(sights: seq<Sight>) {
    forall i :: 0 <= i < |sights| && sights[i].Saw? ==> sights[i].proto != ""
  }

  ghost predicate KnownProtocols(known: Known) {
    forall i :: i in known ==> known[i].port.proto != ""
  }

  lemma {:induction false} SightsHaveProtocols(files: seq<File>)
    requires NamedProtocols(files)
    ensures SeenProtocols(Sights(files))
  {
    if files != [] {
      SightsHaveProtocols(files[..|files| - 1]);
    }
  }

  lemma {:induction false} UntilBrokenProtocols(sights: seq<Sight>)
    requires SeenProtocols(sights)
    ensures SeenProtocols(UntilBroken(sights))
  {
    if sights != [] && sights[0] != Broken {
      UntilBrokenProtocols(sights[1..]);
    }
  }

  lemma {:induction false} SeeAllProtocols(known: Known, sights: seq<Sight>)
    requires KnownProtocols(known) && SeenProtocols(sights)
    ensures KnownProtocols(SeeAll(known, sights))
  {
    if sights != [] {
      SeeAllProtocols(known, sights[..|sights| - 1]);
    }
  }

  lemma PollProtocols(known: Known, files: seq<File>, lookup: Lookup)
    requires KnownProtocols(known) && NamedProtocols(files)
    ensures KnownProtocols(AfterPoll(known, files, lookup))
  {
    SightsHaveProtocols(files);
    UntilBrokenProtocols(Sights(files));
    SeeAllProtocols(Unmark(known), UntilBroken(Sights(files)));
  }

  ghost predicate AllNamed(polls: seq<Poll>) {
    forall n :: 0 <= n < |polls| ==> NamedProtocols(polls[n].files)
  }

  lemma {:induction false} RunProtocols(polls: seq<Poll>)
    requires AllNamed(polls)
    ensures KnownProtocols(RunPolls(map[], polls))
  {
    if polls != [] {
      var last := polls[|polls| - 1];
      RunProtocols(polls[..|polls| - 1]);
      PollProtocols(RunPolls(map[], polls[..|polls| - 1]), last.files, last.lookup);
    }
  }

  // ---- What the table remembers of the rows read ----

  datatype Pair = Pair(proto: string, port: Uint16)

  function PairOf(p: Port): Pair {
    Pair(p.proto, p.port)
  }

  /** What one row shows of its socket. */
  function SightPair(sight: Sight): Pair
    requires sight.Saw?
  {
    Pair(sight.proto, sight.port)
  }

  /** Row n is the first of its inode. */
  ghost predicate FirstSight(sights: seq<Sight>, n: nat) {
    && n < |sights| && sights[n].Saw?
    && forall m :: 0 <= m < n && sights[m].Saw? ==> sights[m].inode != sights[n].inode
  }

  /** The pair a socket has in the table after a scan that first sees it in this row. */
  function Remembered(known: Known, sight: Sight): Pair
    requires sight.Saw?
  {
    if sight.inode in known then PairOf(known[sight.inode].port) else SightPair(sight)
  }

  lemma {:induction false} Unseen(known: Known, sights: seq<Sight>, i: string)
    requires forall m :: 0 <= m < |sights| && sights[m].Saw? ==> sights[m].inode != i
    ensures i in SeeAll(known, sights) <==> i in known
    ensures i in known ==> SeeAll(known, sights)[i] == known[i]
  {
    if sights != [] {
      Unseen(known, sights[..|sights| - 1], i);
    }
  }

  /** Seeing a socket again only marks it. */
  lemma SeeKeepsPair(known: Known, sight: Sight, i: string)
    requires i in known
    ensures i in See(known, sight) && PairOf(See(known, sight)[i].port) == PairOf(known[i].port)
  {
  }

  lemma {:induction false} SeeAllRemembers(known: Known, sights: seq<Sight>, n: nat)
    requires FirstSight(sights, n)
    ensures var i := sights[n].inode;
            i in SeeAll(known, sights) && PairOf(SeeAll(known, sights)[i].port) == Remembered(known, sights[n])
  {
    var before, last := sights[..|sights| - 1], sights[|sights| - 1];
    if n == |sights| - 1 {
      Unseen(known, before, last.inode);
    } else {
      SeeAllRemembers(known, before, n);
      SeeKeepsPair(SeeAll(known, before), last, sights[n].inode);
    }
  }

  /** After a scan that succeeds, a socket has the pair known for it, or else the one its first row shows. */
  lemma PollRemembers(known: Known, files: seq<File>, lookup: Lookup, n: nat)
    requires Intact(Sights(files)) && FirstSight(Sights(files), n)
    ensures var i := Sights(files)[n].inode;
            && i in AfterPoll(known, files, lookup)
            && PairOf(AfterPoll(known, files, lookup)[i].port) == Remembered(known, Sights(files)[n])
  {
    var sights := Sights(files);
    IntactAll(sights);
    SeeAllRemembers(Unmark(known), sights, n);
    SeeAllOk(Unmark(known), sights);
    assert sights[n].inode in Listening(sights);
    NamedPair(SeeAll(Unmark(known), sights), lookup.found, sights[n].inode);
  }

  lemma NamedPair(seen: Known, found: map<string, (string, int)>, i: string)
    requires i in seen && seen[i].keep
    ensures i in NameAll(Sweep(seen), found) && PairOf(NameAll(Sweep(seen), found)[i].port) == PairOf(seen[i].port)
  {
  }

  /** Every socket seen was seen for a first time. */
  lemma {:induction false} SomeFirstSight(sights: seq<Sight>, k: nat) returns (n: nat)
    requires k < |sights| && sights[k].Saw?
    ensures n <= k && FirstSight(sights, n) && sights[n].inode == sights[k].inode
  {
    if FirstSight(sights, k) {
      n := k;
    } else {
      var m :| 0 <= m < k && sights[m].Saw? && sights[m].inode == sights[k].inode;
      n := SomeFirstSight(sights, m);
    }
  }

  // ---- When the table tells the rows' own pairs ----

  /** Every row's pair is the one the table has for its inode. */
  ghost predicate RowsMatch(table: Known, sights: seq<Sight>) {
    forall n :: 0 <= n < |sights| && sights[n].Saw? ==>
      sights[n].inode in table && PairOf(table[sights[n].inode].port) == SightPair(sights[n])
  }

  /** No inode is seen with a pair other than the one known for it, or first seen of it. */
  ghost predicate NoInodeReused(known: Known, sights: seq<Sight>) {
    forall m: nat, n :: FirstSight(sights, m) && m <= n < |sights| && sights[n].Saw? && sights[n].inode == sights[m].inode ==>
      SightPair(sights[n]) == Remembered(known, sights[m])
  }

  /** The table tells every row's own pair after a poll if and only if no inode was reused. */
  lemma RowsMatchIff(known: Known, files: seq<File>, lookup: Lookup)
    requires Intact(Sights(files))
    ensures RowsMatch(AfterPoll(known, files, lookup), Sights(files)) <==> NoInodeReused(known, Sights(files))
  {
    var sights, table := Sights(files), AfterPoll(known, files, lookup);
    if NoInodeReused(known, sights) {
      forall n | 0 <= n < |sights| && sights[n].Saw?
        ensures sights[n].inode in table && PairOf(table[sights[n].inode].port) == SightPair(sights[n])
      {
        var m := SomeFirstSight(sights, n);
        PollRemembers(known, files, lookup, m);
      }
    }
    if RowsMatch(table, sights) {
      forall m: nat, n | FirstSight(sights, m) && m <= n < |sights| && sights[n].Saw? && sights[n].inode == sights[m].inode
        ensures SightPair(sights[n]) == Remembered(known, sights[m])
      {
        PollRemembers(known, files, lookup, m);
      }
    }
  }

  // ---- What is listed over runs ----

  ghost predicate ListsPair(list: seq<Port>, pair: Pair) {
    exists j :: 0 <= j < |list| && PairOf(list[j]) == pair
  }

  ghost predicate ShowsPair(sights: seq<Sight>, pair: Pair) {
    exists n :: 0 <= n < |sights| && sights[n].Saw? && SightPair(sights[n]) == pair
  }

  /** The table before the last poll of a run, and what that poll read. */
  function Before(polls: seq<Poll>): Known
    requires polls != []
  {
    RunPolls(map[], polls[..|polls| - 1])
  }

  function LastSights(polls: seq<Poll>): seq<Sight>
    requires polls != []
  {
    Sights(polls[|polls| - 1].files)
  }

  /**
   * Over any run of polls of files that name their protocol: after a poll whose scan succeeds, every
   * socket listening now is listed with the pair known for it, or else the one its first row shows.
   */
  lemma EveryListenerIsReported(polls: seq<Poll>, list: seq<Port>, n: nat)
    requires polls != [] && AllNamed(polls) && Intact(LastSights(polls)) && FirstSight(LastSights(polls), n)
    requires Lists(RunPolls(map[], polls), list)
    ensures ListsPair(list, Remembered(Before(polls), LastSights(polls)[n]))
  {
    var last, i := polls[|polls| - 1], LastSights(polls)[n].inode;
    PollRemembers(Before(polls), last.files, last.lookup, n);
    RunProtocols(polls);
    ReportCovers(RunPolls(map[], polls), list, i);
    var j :| 0 <= j < |list| && SameSlot(list[j], RunPolls(map[], polls)[i].port);
    assert PairOf(list[j]) == PairOf(RunPolls(map[], polls)[i].port);
  }

  /** And nothing else is listed. */
  lemma OnlyListenersAreReported(polls: seq<Poll>, list: seq<Port>, j: nat) returns (n: nat)
    requires polls != [] && Intact(LastSights(polls)) && Lists(RunPolls(map[], polls), list) && j < |list|
    ensures FirstSight(LastSights(polls), n) && PairOf(list[j]) == Remembered(Before(polls), LastSights(polls)[n])
  {
    var last, sights, table := polls[|polls| - 1], LastSights(polls), RunPolls(map[], polls);
    var i := ListedFromTable(table, list, j);
    TableIsExact(Before(polls), last.files, last.lookup);
    var k :| 0 <= k < |sights| && sights[k].Saw? && sights[k].inode == i;
    n := SomeFirstSight(sights, k);
    PollRemembers(Before(polls), last.files, last.lookup, n);
  }

  lemma ListedFromTable(known: Known, list: seq<Port>, j: nat) returns (i: string)
    requires Lists(known, list) && j < |list|
    ensures i in known && known[i].port == list[j]
  {
    var ps, q :| Gathers(known, ps) && SortResult(q, ps, LessThan) && list == Dedup(q);
    SortKeepsMembers(q, ps);
    DedupShape(q);
    assert list[j] in Dedup(q);
    assert list[j] in ps;
    i :| i in known && known[i].port == list[j];
  }

  /**
   * Over any run of polls of files that name their protocol: after a poll whose scan succeeds and
   * reuses no inode, the pairs listed are exactly those of the rows read.
   */
  lemma ListsTheRowsRead(polls: seq<Poll>, list: seq<Port>, pair: Pair)
    requires polls != [] && AllNamed(polls) && Intact(LastSights(polls)) && NoInodeReused(Before(polls), LastSights(polls))
    requires Lists(RunPolls(map[], polls), list)
    ensures ListsPair(list, pair) <==> ShowsPair(LastSights(polls), pair)
  {
    var sights := LastSights(polls);
    if ListsPair(list, pair) {
      var j :| 0 <= j < |list| && PairOf(list[j]) == pair;
      var n := OnlyListenersAreReported(polls, list, j);
      assert SightPair(sights[n]) == pair;
    }
    if ShowsPair(sights, pair) {
      var k :| 0 <= k < |sights| && sights[k].Saw? && SightPair(sights[k]) == pair;
      var n := SomeFirstSight(sights, k);
      EveryListenerIsReported(polls, list, n);
    }
  }

  /** A run in which every row of an inode, in any poll, shows the same pair. */
  ghost predicate OnePairEach(polls: seq<Poll>, pairs: string -> Pair) {
    forall k :: 0 <= k < |polls| ==> SightsAgree(Sights(polls[k].files), pairs)
  }

  ghost predicate SightsAgree(sights: seq<Sight>, pairs: string -> Pair) {
    forall n :: 0 <= n < |sights| && sights[n].Saw? ==> SightPair(sights[n]) == pairs(sights[n].inode)
  }

  ghost predicate TableAgrees(known: Known, pairs: string -> Pair) {
    forall i :: i in known ==> PairOf(known[i].port) == pairs(i)
  }

  lemma {:induction false} UntilBrokenAgrees(sights: seq<Sight>, pairs: string -> Pair)
    requires SightsAgree(sights, pairs)
    ensures SightsAgree(UntilBroken(sights), pairs)
  {
    if sights != [] && sights[0] != Broken {
      UntilBrokenAgrees(sights[1..], pairs);
    }
  }

  lemma {:induction false} SeeAllAgrees(known: Known, sights: seq<Sight>, pairs: string -> Pair)
    requires TableAgrees(known, pairs) && SightsAgree(sights, pairs)
    ensures TableAgrees(SeeAll(known, sights), pairs)
  {
    if sights != [] {
      SeeAllAgrees(known, sights[..|sights| - 1], pairs);
    }
  }

  lemma PollAgrees(known: Known, files: seq<File>, lookup: Lookup, pairs: string -> Pair)
    requires TableAgrees(known, pairs) && SightsAgree(Sights(files), pairs)
    ensures TableAgrees(AfterPoll(known, files, lookup), pairs)
  {
    UntilBrokenAgrees(Sights(files), pairs);
    SeeAllAgrees(Unmark(known), UntilBroken(Sights(files)), pairs);
  }

  lemma {:induction false} RunAgrees(polls: seq<Poll>, pairs: string -> Pair)
    requires OnePairEach(polls, pairs)
    ensures TableAgrees(RunPolls(map[], polls), pairs)
  {
    if polls != [] {
      var last := polls[|polls| - 1];
      RunAgrees(polls[..|polls| - 1], pairs);
      PollAgrees(Before(polls), last.files, last.lookup, pairs);
    }
  }

  /** In such a run no poll reuses an inode, whatever fails in between. */
  lemma NothingReused(polls: seq<Poll>, pairs: string -> Pair)
    requires polls != [] && OnePairEach(polls, pairs)
    ensures NoInodeReused(Before(polls), LastSights(polls))
  {
    RunAgrees(polls[..|polls| - 1], pairs);
    AgreedNotReused(Before(polls), LastSights(polls), pairs);
  }

  lemma AgreedNotReused(known: Known, sights: seq<Sight>, pairs: string -> Pair)
    requires TableAgrees(known, pairs) && SightsAgree(sights, pairs)
    ensures NoInodeReused(known, sights)
  {
  }

  function OneRow(port: Uint16, lookup: Lookup): Poll {
    Poll([File("tcp", [Listener("i", port)])], lookup)
  }

  lemma OneRowSights(port: Uint16, lookup: Lookup)
    ensures Sights(OneRow(port, lookup).files) == [Saw("i", "tcp", port)]
    ensures NamedProtocols(OneRow(port, lookup).files)
  {
    var f := File("tcp", [Listener("i", port)]);
    assert [f][..0] == [];
    assert FileSights(f) == [Saw("i", "tcp", port)];
  }

  /** A socket whose inode number was another's at the last poll is listed under that one's port, and not its own. */
  lemma ReusedInode(lookup: Lookup, list: seq<Port>)
    requires Lists(RunPolls(map[], [OneRow(80, lookup), OneRow(81, lookup)]), list)
    ensures var polls := [OneRow(80, lookup), OneRow(81, lookup)];
            && AllNamed(polls) && Intact(LastSights(polls)) && ShowsPair(LastSights(polls), Pair("tcp", 81))
            && ListsPair(list, Pair("tcp", 80)) && !ListsPair(list, Pair("tcp", 81))
  {
    var polls := [OneRow(80, lookup), OneRow(81, lookup)];
    assert polls[..1] == [OneRow(80, lookup)];
    OneRowSights(80, lookup);
    OneRowSights(81, lookup);
    FirstRow(lookup);
    OneRowLists(polls, list, Saw("i", "tcp", 81));
    assert LastSights(polls)[0] == Saw("i", "tcp", 81);
  }

  lemma FirstRow(lookup: Lookup)
    ensures var table := RunPolls(map[], [OneRow(80, lookup)]);
            "i" in table && PairOf(table["i"].port) == Pair("tcp", 80)
  {
    var polls := [OneRow(80, lookup)];
    assert polls[..0] == [];
    OneRowSights(80, lookup);
    PollRemembers(map[], polls[0].files, lookup, 0);
  }

  /** A poll that reads one row lists one pair. */
  lemma OneRowLists(polls: seq<Poll>, list: seq<Port>, sight: Sight)
    requires polls != [] && AllNamed(polls) && sight.Saw? && LastSights(polls) == [sight]
    requires Lists(RunPolls(map[], polls), list)
    ensures forall pair :: ListsPair(list, pair) <==> pair == Remembered(Before(polls), sight)
  {
    EveryListenerIsReported(polls, list, 0);
    forall j | 0 <= j < |list|
      ensures PairOf(list[j]) == Remembered(Before(polls), sight)
    {
      var n := OnlyListenersAreReported(polls, list, j);
    }
  }

  /** Some socket listening now has no name settled. */
  ghost predicate WantsName(known: Known, files: seq<File>) {
    var seen := SeeAll(Unmark(known), UntilBroken(Sights(files)));
    exists i :: i in seen && seen[i].keep && seen[i].needsProcName
  }

  /** A sweep that has still to look at `rest`. */
  ghost predicate InSweep(was: Known, known: Known, need: set<string>, rest: set<string>) {
    && rest <= was.Keys
    && (forall i :: i in known <==> i in was && (i in rest || was[i].keep))
    && (forall i :: i in known ==> known[i] == was[i])
    && (forall i :: i in need <==> i in was && i !in rest && was[i].keep && was[i].needsProcName)
  }

  lemma SweepStep(was: Known, known: Known, need: set<string>, rest: set<string>, i: string)
    requires InSweep(was, known, need, rest) && i in rest
    ensures i in known && known[i] == was[i]
    ensures !was[i].keep ==> InSweep(was, known - {i}, need, rest - {i})
    ensures was[i].keep && was[i].needsProcName ==> InSweep(was, known, need + {i}, rest - {i})
    ensures was[i].keep && !was[i].needsProcName ==> InSweep(was, known, need, rest - {i})
  {
  }

  datatype Result<T> = Ok(value: T) | Err

  class LinuxImpl {
    var known: Known

    constructor ()
      ensures known == map[]
    {
      known := map[];
    }

    method MarkAllGone()
      modifies this
      ensures known == Unmark(old(known))
    {
      var rest := known.Keys;
      while rest != {}
        invariant known.Keys == old(known).Keys && rest <= known.Keys
        invariant forall i :: i in known ==> known[i] == if i in rest then old(known)[i] else old(known)[i].(keep := false)
        decreases |rest|
      {
        var i :| i in rest;
        known := known[i := known[i].(keep := false)];
        rest := rest - {i};
      }
    }

    /** One row: a listener is marked, or added with a mark. */
    method ParseRow(proto: string, row: Row) returns (ok: bool)
      modifies this
      ensures ok <==> SightOf(proto, row) != Broken
      ensures known == See(old(known), SightOf(proto, row))
    {
      match row
      case BadRow => return false;
      case OtherRow => return true;
      case Listener(inode, port) =>
        if inode in known {
          known := known[inode := known[inode].(keep := true)];
        } else {
          known := known[inode := Meta(Port(proto, port, "", 0), 0, true, true)];
        }
        return true;
    }

    method ParseFile(file: File) returns (ok: bool)
      modifies this
      ensures ok == Intact(FileSights(file))
      ensures known == SeeAll(old(known), UntilBroken(FileSights(file)))
    {
      if file == Unreadable {
        assert FileSights(file)[0] == Broken;
        return false;
      }
      ghost var sights := FileSights(file);
      var n := 0;
      assert sights[..0] == [];
      while n < |file.rows|
        invariant 0 <= n <= |sights| <= |file.rows|
        invariant Intact(sights[..n]) && known == SeeAll(old(known), sights[..n])
        decreases |file.rows| - n
      {
        if n + 1 >= MAX_ROWS {
          break;
        }
        ok := ParseRow(file.proto, file.rows[n]);
        SeeNext(old(known), sights, n);
        if !ok {
          return false;
        }
        n := n + 1;
      }
      assert sights[..n] == sights;
      IntactAll(sights);
      return true;
    }

    method ScanFiles(files: seq<File>) returns (ok: bool)
      modifies this
      ensures ok == Intact(Sights(files))
      ensures known == SeeAll(old(known), UntilBroken(Sights(files)))
    {
      var n := 0;
      assert files[..0] == [];
      while n < |files|
        invariant 0 <= n <= |files|
        invariant Intact(Sights(files[..n])) && known == SeeAll(old(known), Sights(files[..n]))
      {
        ghost var a, b := Sights(files[..n]), FileSights(files[n]);
        SightsSplit(files, n);
        ok := ParseFile(files[n]);
        SeeAllConcat(old(known), a, UntilBroken(b));
        UntilBrokenConcat(a, b);
        if !ok {
          BrokenStays(files, n);
          return;
        }
        IntactAll(b);
        n := n + 1;
      }
      assert files[..n] == files;
      IntactAll(Sights(files));
      return true;
    }

    /** Deletes what was not seen and collects what still wants a name. */
    method SweepGone() returns (need: set<string>)
      modifies this
      ensures known == Sweep(old(known))
      ensures need == set i | i in known && known[i].needsProcName
    {
      var rest := known.Keys;
      need := {};
      while rest != {}
        invariant InSweep(old(known), known, need, rest)
        decreases |rest|
      {
        var i :| i in rest;
        SweepStep(old(known), known, need, rest, i);
        if !known[i].keep {
          known := known - {i};
        } else if known[i].needsProcName {
          need := need + {i};
        }
        rest := rest - {i};
      }
    }

    /** Whatever is not found is given up on, also when the walk fails. */
    method FindProcessNames(need: set<string>, lookup: Lookup) returns (ok: bool)
      requires need == set i | i in known && known[i].needsProcName
      modifies this
      ensures known == NameAll(old(known), lookup.found)
      ensures ok <==> need == {} || lookup.ok
    {
      if need == {} {
        assert forall i :: i in known ==> !known[i].needsProcName by {
          assert forall i :: i in known && known[i].needsProcName ==> i in need;
        }
        return true;
      }
      var rest := need;
      while rest != {}
        invariant rest <= need && known.Keys == old(known).Keys
        invariant forall i :: i in known ==>
                    known[i] == if i in need - rest then Name(old(known)[i], i, lookup.found) else old(known)[i]
        decreases |rest|
      {
        var i :| i in rest;
        if i in lookup.found {
          var (process, pid) := lookup.found[i];
          known := known[i := known[i].(port := known[i].port.(process := process, pid := pid), pid := pid)];
        }
        known := known[i := known[i].(needsProcName := false)];
        rest := rest - {i};
      }
      return lookup.ok;
    }

    method Gather() returns (ps: seq<Port>)
      ensures Gathers(known, ps) && |ps| == |known|
    {
      ps := [];
      var rest := known.Keys;
      while rest != {}
        invariant rest <= known.Keys && |ps| + |rest| == |known.Keys|
        invariant forall p :: p in ps <==> exists i :: i in known && i !in rest && known[i].port == p
        decreases |rest|
      {
        var i :| i in rest;
        ps := ps + [known[i].port];
        rest := rest - {i};
      }
    }

    method AppendListeningPorts(files: seq<File>, lookup: Lookup) returns (r: Result<seq<Port>>)
      modifies this
      ensures known == AfterPoll(old(known), files, lookup)
      ensures r.Ok? <==> Intact(Sights(files)) && (lookup.ok || !WantsName(old(known), files))
      ensures r.Ok? ==> Lists(known, r.value)
    {
      MarkAllGone();
      var ok := ScanFiles(files);
      if !ok {
        return Err;
      }
      ghost var seen := known;
      var need := SweepGone();
      assert need != {} <==> WantsName(old(known), files) by {
        assert forall i :: i in need <==> i in seen && seen[i].keep && seen[i].needsProcName;
        assert need != {} <==> exists i :: i in need;
      }
      ok := FindProcessNames(need, lookup);
      if !ok {
        return Err;
      }
      var ps := Gather();
      var a := new Port[|ps|](i requires 0 <= i < |ps| => ps[i]);
      assert a[..] == ps;
      ghost var q;
      var n;
      n, q := SortAndDedup(a);
      r := Ok(a[..n]);
    }
  }

  lemma SightsSplit(files: seq<File>, n: nat)
    requires n < |files|
    ensures Sights(files[..n + 1]) == Sights(files[..n]) + FileSights(files[n])
  {
    assert files[..n + 1][..n] == files[..n];
  }

  lemma BrokenConcat(a: seq<Sight>, b: seq<Sight>)
    requires !Intact(a) || !Intact(b)
    ensures !Intact(a + b)
  {
    if !Intact(a) {
      var i :| 0 <= i < |a| && a[i] == Broken;
      assert (a + b)[i] == Broken;
    } else {
      var i :| 0 <= i < |b| && b[i] == Broken;
      assert (a + b)[|a| + i] == Broken;
    }
  }

  lemma {:induction false} BrokenStays(files: seq<File>, n: nat)
    requires n < |files| && !Intact(FileSights(files[n]))
    ensures !Intact(Sights(files)) && UntilBroken(Sights(files)) == UntilBroken(Sights(files[..n + 1]))
    decreases |files|
  {
    SightsSplit(files, n);
    BrokenConcat(Sights(files[..n]), FileSights(files[n]));
    if n + 1 == |files| {
      assert files[..n + 1] == files;
    } else {
      var before := files[..|files| - 1];
      BrokenStays(before, n);
      assert before[..n + 1] == files[..n + 1];
      var c := FileSights(files[|files| - 1]);
      StopsAtBroken(Sights(before), c);
      BrokenConcat(Sights(before), c);
    }
  }

  // ---- The change detector ----

  datatype Report = Failed | Unchanged | Changed(ports: seq<Port>)

  class Poller {
    const impl: LinuxImpl
    const initFailed: bool
    var prev: seq<Port>

    constructor (impl: LinuxImpl, initFailed: bool)
      ensures this.impl == impl && this.initFailed == initFailed && prev == []
    {
      this.impl, this.initFailed, prev := impl, initFailed, [];
    }

    /** `prev` shows the table as it now is. */
    ghost predicate Current()
      reads this, impl
    {
      exists list :: Lists(impl.known, list) && Faces(list) == Faces(prev)
    }

    /** A change is reported exactly when the list differs from the last one in more than process IDs. */
    method Poll(files: seq<File>, lookup: Lookup) returns (r: Report)
      modifies this, impl
      ensures impl.known == if initFailed then old(impl.known) else AfterPoll(old(impl.known), files, lookup)
      ensures !r.Changed? ==> prev == old(prev)
      ensures r.Unchanged? ==> Current()
      ensures r.Changed? ==> prev == r.ports && Lists(impl.known, prev) && Faces(prev) != Faces(old(prev))
      ensures r.Failed? <==> initFailed || !Intact(Sights(files)) || (!lookup.ok && WantsName(old(impl.known), files))
    {
      if initFailed {
        return Failed;
      }
      var pl := impl.AppendListeningPorts(files, lookup);
      if pl.Err? {
        return Failed;
      }
      var same := ListEqual(pl.value, prev);
      if same {
        return Unchanged;
      }
      prev := pl.value;
      return Changed(prev);
    }
  }
}
