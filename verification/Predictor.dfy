/** The bin ring and the firing cooldown of the prediction server. Feature vectors are opaque. */
module Predictor {
  import opened Serial
  import opened Reassembly

  /** A completed time bin: its feature vector and whether it saw a congestion event. */
  datatype Bin<T> = Bin(vec: T, congested: bool)

  /** One parsed ACK row: the bin its timestamp falls in and its congestion mark. */
  datatype Row = Row(id: int, congested: bool)

  // ---------- the sliding window over an uncapped history ----------

  function Zeros<T>(zero: T, n: nat): (z: seq<Bin<T>>)
    ensures |z| == n
  {
    seq(n, _ => Bin(zero, false))
  }

  /** The last `n` bins of the history, zero-padded at the start. */
  function Window<T>(h: seq<Bin<T>>, n: nat, zero: T): (w: seq<Bin<T>>)
    ensures |w| == n
  {
    var padded := Zeros(zero, n) + h;
    padded[|padded| - n..]
  }

  lemma {:induction false} WindowFresh<T>(n: nat, zero: T)
    ensures Window([], n, zero) == Zeros(zero, n)
  {
  }

  /** Completing one bin slides the window by one. */
  lemma {:induction false} WindowPush<T>(h: seq<Bin<T>>, n: nat, zero: T, b: Bin<T>)
    requires n > 0
    ensures Window(h + [b], n, zero) == Window(h, n, zero)[1..] + [b]
  {
    assert Zeros(zero, n) + (h + [b]) == (Zeros(zero, n) + h) + [b];
  }

  /** A gap of `n` or more empty bins leaves the same window as exactly `n` of them. */
  lemma {:induction false} GapCapIsExact<T>(h: seq<Bin<T>>, n: nat, zero: T, gap: nat)
    ensures Window(h + Zeros(zero, gap), n, zero) == Window(h + Zeros(zero, Min(gap, n)), n, zero)
  {
    if gap > n {
      assert Window(h + Zeros(zero, gap), n, zero) == Zeros(zero, n);
      assert Window(h + Zeros(zero, n), n, zero) == Zeros(zero, n);
    }
  }

  predicate AnyCongested<T>(w: seq<Bin<T>>) {
    exists i :: 0 <= i < |w| && w[i].congested
  }

  // ---------- the server on values ----------

  /** history: every bin, skipped ones included; count: bins written to the ring; open: the bin being
      filled and whether it is marked; fires: `count` at each firing. */
  datatype Server<T> = Server(history: seq<Bin<T>>, count: nat, current: Option<(int, bool)>,
                              cooldown: int, fires: seq<nat>)

  function Fresh<T>(): Server<T> { Server([], 0, None, 0, []) }

  /** The bins a row completes: none inside the open bin, else that bin and the skipped ones. */
  function Gap(current: int, id: int): nat { Max(0, id - current - 1) }

  /** BinAggregator.push on values; also the number of bins it reports. `vec` is the vector of the bin
      it closes, if it closes one. */
  function Push<T>(s: Server<T>, row: Row, vec: T, n: nat, zero: T): (Server<T>, nat) {
    match s.current
    case None => (s.(current := Some((row.id, row.congested))), 0)
    case Some((id, marked)) =>
      if row.id == id then (s.(current := Some((id, marked || row.congested))), 0)
      else
        var gap := Gap(id, row.id);
        (s.(history := s.history + [Bin(vec, marked)] + Zeros(zero, gap),
            count := s.count + 1 + Min(gap, n),
            current := Some((row.id, row.congested))), 1 + Min(gap, n))
  }

  /** The cooldown and firing decision after a push that completed `added` bins; `high` is p >= threshold. */
  function Decide<T>(s: Server<T>, added: nat, high: bool, n: nat, zero: T, cooldownLen: nat): (Server<T>, bool) {
    if s.cooldown > 0 then (s.(cooldown := Max(0, s.cooldown - added)), false)
    else if AnyCongested(Window(s.history, n, zero)) || !high then (s, false)
    else (s.(cooldown := cooldownLen, fires := s.fires + [s.count]), true)
  }

  /** One row of the serve loop. */
  function OnRow<T>(s: Server<T>, row: Row, vec: T, high: bool, n: nat, zero: T, cooldownLen: nat): Server<T> {
    var (s1, added) := Push(s, row, vec, n, zero);
    if added > 0 && s1.count >= n then Decide(s1, added, high, n, zero, cooldownLen).0 else s1
  }

  // ---------- invariants over every row sequence ----------

  /** The ring counter and the uncapped history agree on readiness. */
  predicate CountOk<T>(s: Server<T>, n: nat) {
    s.count == |s.history| || (s.count >= n && |s.history| >= n)
  }

  /** Firings are spaced, and the bins since the last one plus the cooldown left cover the length. */
  predicate Spaced<T>(s: Server<T>, n: nat, cooldownLen: nat) {
    && s.cooldown >= 0
    && (forall i, j :: 0 <= i < j < |s.fires| ==> s.fires[j] - s.fires[i] > cooldownLen)
    && (forall i :: 0 <= i < |s.fires| ==> s.fires[i] <= s.count)
    && (s.fires != [] ==> s.count >= n && s.count - s.fires[|s.fires| - 1] + s.cooldown >= cooldownLen)
    && (s.fires == [] ==> s.cooldown == 0)
  }

  predicate ServerOk<T>(s: Server<T>, n: nat, cooldownLen: nat) {
    CountOk(s, n) && Spaced(s, n, cooldownLen)
  }

  /** A push completes at least as many history bins as it reports. */
  lemma {:induction false} PushGrows<T>(s: Server<T>, row: Row, vec: T, n: nat, zero: T)
    requires CountOk(s, n)
    ensures var (s1, added) := Push(s, row, vec, n, zero);
      && CountOk(s1, n)
      && s1.cooldown == s.cooldown && s1.fires == s.fires
      && s1.count == s.count + added && |s1.history| >= |s.history| + added
      && s.history <= s1.history
      && (added == 0 ==> s1.history == s.history)
  {
  }

  /** Before a decision is taken the spacing holds as well. */
  lemma {:induction false} PushKeeps<T>(s: Server<T>, row: Row, vec: T, n: nat, zero: T, cooldownLen: nat)
    requires ServerOk(s, n, cooldownLen)
    ensures ServerOk(Push(s, row, vec, n, zero).0, n, cooldownLen)
  {
    PushGrows(s, row, vec, n, zero);
    hide Push;
  }

  /** The decision keeps the spacing: `added` bins have just been completed since `s` was spaced. */
  lemma {:induction false} DecideKeeps<T>(s: Server<T>, s1: Server<T>, added: nat, high: bool, n: nat, zero: T,
                                          cooldownLen: nat)
    requires Spaced(s, n, cooldownLen) && added > 0 && s1.count == s.count + added >= n
    requires s1.cooldown == s.cooldown && s1.fires == s.fires
    ensures Spaced(Decide(s1, added, high, n, zero, cooldownLen).0, n, cooldownLen)
  {
    hide AnyCongested, Window;
    if s.fires != [] {
      var last := |s.fires| - 1;
      forall i | 0 <= i < |s.fires| && s.cooldown == 0
        ensures s1.count - s.fires[i] > cooldownLen
      {
        assert i < last ==> s.fires[last] - s.fires[i] > cooldownLen;
      }
    }
  }

  lemma {:induction false} RowKeeps<T>(s: Server<T>, row: Row, vec: T, high: bool, n: nat, zero: T, cooldownLen: nat)
    requires ServerOk(s, n, cooldownLen)
    ensures ServerOk(OnRow(s, row, vec, high, n, zero, cooldownLen), n, cooldownLen)
  {
    PushGrows(s, row, vec, n, zero);
    var (s1, added) := Push(s, row, vec, n, zero);
    if added > 0 && s1.count >= n {
      DecideKeeps(s, s1, added, high, n, zero, cooldownLen);
    }
  }

  /** This row completes at least one bin. */
  predicate Completes<T>(s: Server<T>, row: Row) { s.current.Some? && row.id != s.current.value.0 }

  /** A row fires exactly if it completes a bin, the cooldown is over, the window is full and holds no
      congestion, and the model's verdict is high. */
  lemma {:induction false} FiresIff<T>(s: Server<T>, row: Row, vec: T, high: bool, n: nat, zero: T,
                                       cooldownLen: nat)
    requires ServerOk(s, n, cooldownLen)
    ensures var s' := OnRow(s, row, vec, high, n, zero, cooldownLen);
      var fires := Completes(s, row) && s.cooldown == 0 && |s'.history| >= n && high
                   && !AnyCongested(Window(s'.history, n, zero));
      && s'.fires == s.fires + (if fires then [s'.count] else [])
      && (fires ==> s'.cooldown == cooldownLen)
  {
    PushGrows(s, row, vec, n, zero);
  }

  /** The cooldown left is what the bins completed since the last firing have not used up. */
  predicate Cooling<T>(s: Server<T>, cooldownLen: nat) {
    s.cooldown == if s.fires == [] then 0 else Max(0, cooldownLen - (s.count - s.fires[|s.fires| - 1]))
  }

  lemma {:induction false} RowCools<T>(s: Server<T>, row: Row, vec: T, high: bool, n: nat, zero: T,
                                       cooldownLen: nat)
    requires ServerOk(s, n, cooldownLen) && Cooling(s, cooldownLen)
    ensures Cooling(OnRow(s, row, vec, high, n, zero, cooldownLen), cooldownLen)
  {
    PushGrows(s, row, vec, n, zero);
    hide AnyCongested, Window, Push;
  }

  /** Inputs of one row: the row, the vector its push may need, and the model's verdict. */
  datatype Input<T> = Input(row: Row, vec: T, high: bool)

  function Serve<T>(rows: seq<Input<T>>, n: nat, zero: T, cooldownLen: nat): Server<T> {
    if rows == [] then Fresh()
    else
      var i := rows[|rows| - 1];
      OnRow(Serve(rows[..|rows| - 1], n, zero, cooldownLen), i.row, i.vec, i.high, n, zero, cooldownLen)
  }

  /** Over every row sequence, any two firings are more than the cooldown length of bins the server has
      completed apart, skipped bins past the cap not counted; the cooldown is over exactly when that many
      have been completed; and the ring is ready exactly when as many bins as it holds have passed. */
  lemma {:induction false} FiringsSpaced<T>(rows: seq<Input<T>>, n: nat, zero: T, cooldownLen: nat)
    ensures var s := Serve(rows, n, zero, cooldownLen);
      && ServerOk(s, n, cooldownLen) && Cooling(s, cooldownLen)
      && (s.count >= n <==> |s.history| >= n)
      && forall i, j :: 0 <= i < j < |s.fires| ==> s.fires[j] - s.fires[i] > cooldownLen
  {
    if rows != [] {
      var init, i := rows[..|rows| - 1], rows[|rows| - 1];
      FiringsSpaced(init, n, zero, cooldownLen);
      RowKeeps(Serve(init, n, zero, cooldownLen), i.row, i.vec, i.high, n, zero, cooldownLen);
      RowCools(Serve(init, n, zero, cooldownLen), i.row, i.vec, i.high, n, zero, cooldownLen);
      hide OnRow;
    }
  }

  // ---------- the history against the rows ----------

  /** Some row of bin `id` reports congestion. */
  ghost predicate Marked<T(!new)>(rows: seq<Input<T>>, id: int) {
    exists i :: 0 <= i < |rows| && rows[i].row.id == id && rows[i].row.congested
  }

  /** Some row falls in bin `id`. */
  ghost predicate Visited<T(!new)>(rows: seq<Input<T>>, id: int) {
    exists i :: 0 <= i < |rows| && rows[i].row.id == id
  }

  /** Row `i` is the first past bin `id`, and `vec` is the vector finalised on its arrival. */
  ghost predicate ClosedBy<T>(rows: seq<Input<T>>, i: int, id: int, vec: T) {
    0 < i < |rows| && rows[i - 1].row.id == id < rows[i].row.id && rows[i].vec == vec
  }

  ghost predicate Closed<T(!new)>(rows: seq<Input<T>>, id: int, vec: T) {
    exists i :: ClosedBy(rows, i, id, vec)
  }

  lemma {:induction false} ClosedAppend<T(!new)>(rows: seq<Input<T>>, x: Input<T>, id: int, vec: T)
    requires Closed(rows, id, vec)
    ensures Closed(rows + [x], id, vec)
  {
    var i :| ClosedBy(rows, i, id, vec);
    assert ClosedBy(rows + [x], i, id, vec);
  }

  predicate Ascending<T>(rows: seq<Input<T>>) {
    forall i, j :: 0 <= i < j < |rows| ==> rows[i].row.id <= rows[j].row.id
  }

  /** One bin per identifier from the first row's on; marked exactly if one of its rows reports congestion,
      with the vector finalised by the first row past it, zero if no row falls in it; the last one is still
      open. */
  ghost predicate Matches<T(!new)>(s: Server<T>, rows: seq<Input<T>>, zero: T)
    requires rows != []
  {
    var first, last := rows[0].row.id, rows[|rows| - 1].row.id;
    && s.current == Some((last, Marked(rows, last)))
    && |s.history| == last - first
    && forall j :: 0 <= j < |s.history| ==> BinMatches(s.history[j], rows, first + j, zero)
  }

  ghost predicate BinMatches<T(!new)>(bin: Bin<T>, rows: seq<Input<T>>, id: int, zero: T) {
    && (bin.congested <==> Marked(rows, id))
    && if Visited(rows, id) then Closed(rows, id, bin.vec) else bin == Bin(zero, false)
  }

  /** For rows in the order of time the history has exactly one bin per identifier, with the marks of its
      rows. */
  lemma {:induction false} HistoryMatchesRows<T(!new)>(rows: seq<Input<T>>, n: nat, zero: T, cooldownLen: nat)
    requires rows != [] && Ascending(rows)
    ensures Matches(Serve(rows, n, zero, cooldownLen), rows, zero)
  {
    var init, x := rows[..|rows| - 1], rows[|rows| - 1];
    var s := Serve(init, n, zero, cooldownLen);
    OnRowHistory(s, x.row, x.vec, x.high, n, zero, cooldownLen);
    assert rows == init + [x];
    hide OnRow, Push;
    if init == [] {
      MatchesFirst<T>(x, n, zero);
      assert rows == [x];
    } else {
      AscendingInit(init, x);
      HistoryMatchesRows(init, n, zero, cooldownLen);
      hide Ascending, Matches;
      MatchesPush(s, init, x, n, zero);
    }
    MatchesFrame(Push(s, x.row, x.vec, n, zero).0, Serve(rows, n, zero, cooldownLen), rows, zero);
  }

  lemma {:induction false} MatchesFirst<T(!new)>(x: Input<T>, n: nat, zero: T)
    ensures Matches(Push(Fresh(), x.row, x.vec, n, zero).0, [x], zero)
  {
    assert [x][0] == x;
  }

  lemma {:induction false} MatchesFrame<T(!new)>(s: Server<T>, s': Server<T>, rows: seq<Input<T>>, zero: T)
    requires rows != [] && Matches(s, rows, zero) && s'.history == s.history && s'.current == s.current
    ensures Matches(s', rows, zero)
  {
  }

  /** The decision touches neither the history nor the open bin. */
  lemma {:induction false} OnRowHistory<T>(s: Server<T>, row: Row, vec: T, high: bool, n: nat, zero: T,
                                           cooldownLen: nat)
    ensures var s', s1 := OnRow(s, row, vec, high, n, zero, cooldownLen), Push(s, row, vec, n, zero).0;
      s'.history == s1.history && s'.current == s1.current
  {
  }

  lemma {:induction false} MarkedAppend<T(!new)>(rows: seq<Input<T>>, x: Input<T>, id: int)
    ensures Marked(rows + [x], id) <==> Marked(rows, id) || (x.row.id == id && x.row.congested)
    ensures Visited(rows + [x], id) <==> Visited(rows, id) || x.row.id == id
  {
    var all := rows + [x];
    if Marked(rows, id) {
      var i :| 0 <= i < |rows| && rows[i].row.id == id && rows[i].row.congested;
      assert all[i] == rows[i];
    }
    if Visited(rows, id) {
      var i :| 0 <= i < |rows| && rows[i].row.id == id;
      assert all[i] == rows[i];
    }
    assert all[|rows|] == x;
  }

  /** No row lies past the last. */
  lemma {:induction false} NotVisited<T(!new)>(rows: seq<Input<T>>, id: int)
    requires rows != [] && Ascending(rows) && id > rows[|rows| - 1].row.id
    ensures !Visited(rows, id) && !Marked(rows, id)
  {
  }

  /** An earlier bin is not touched by a later row. */
  lemma {:induction false} BinKept<T(!new)>(bin: Bin<T>, rows: seq<Input<T>>, x: Input<T>, id: int, zero: T)
    requires BinMatches(bin, rows, id, zero) && id < x.row.id
    ensures BinMatches(bin, rows + [x], id, zero)
  {
    MarkedAppend(rows, x, id);
    if Visited(rows, id) {
      ClosedAppend(rows, x, id, bin.vec);
    }
  }

  /** The open bin is closed by the first row past it. */
  lemma {:induction false} BinClosed<T(!new)>(rows: seq<Input<T>>, x: Input<T>, zero: T)
    requires rows != [] && rows[|rows| - 1].row.id < x.row.id
    ensures var id := rows[|rows| - 1].row.id;
      BinMatches(Bin(x.vec, Marked(rows, id)), rows + [x], id, zero)
  {
    var id := rows[|rows| - 1].row.id;
    MarkedAppend(rows, x, id);
    assert Visited(rows, id);
    assert ClosedBy(rows + [x], |rows|, id, x.vec);
  }

  /** A skipped bin is zero. */
  lemma {:induction false} BinSkipped<T(!new)>(rows: seq<Input<T>>, x: Input<T>, id: int, zero: T)
    requires rows != [] && Ascending(rows) && rows[|rows| - 1].row.id < id < x.row.id
    ensures BinMatches(Bin(zero, false), rows + [x], id, zero)
  {
    MarkedAppend(rows, x, id);
    NotVisited(rows, id);
  }

  lemma {:induction false} AscendingInit<T>(rows: seq<Input<T>>, x: Input<T>)
    requires rows != [] && Ascending(rows + [x])
    ensures Ascending(rows) && rows[|rows| - 1].row.id <= x.row.id
  {
    var all := rows + [x];
    forall i, j | 0 <= i < j < |rows|
      ensures rows[i].row.id <= rows[j].row.id
    {
      assert all[i] == rows[i] && all[j] == rows[j];
    }
    assert all[|rows| - 1] == rows[|rows| - 1] && all[|rows|] == x;
  }

  /** A row inside the open bin. */
  lemma {:induction false} MatchesSame<T(!new)>(s: Server<T>, rows: seq<Input<T>>, x: Input<T>, n: nat, zero: T)
    requires rows != [] && x.row.id == rows[|rows| - 1].row.id && Matches(s, rows, zero)
    ensures Matches(Push(s, x.row, x.vec, n, zero).0, rows + [x], zero)
  {
    var all, s', last := rows + [x], Push(s, x.row, x.vec, n, zero).0, rows[|rows| - 1].row.id;
    MarkedAppend(rows, x, last);
    hide BinMatches, Marked;
    forall j | 0 <= j < |s'.history|
      ensures BinMatches(s'.history[j], all, all[0].row.id + j, zero)
    {
      BinKept(s.history[j], rows, x, rows[0].row.id + j, zero);
    }
  }

  lemma {:induction false} Spliced<T>(h: seq<Bin<T>>, closed: Bin<T>, gap: nat, zero: T, j: nat)
    requires j < |h| + 1 + gap
    ensures (h + [closed] + Zeros(zero, gap))[j] ==
      if j < |h| then h[j] else if j == |h| then closed else Bin(zero, false)
  {
  }

  /** The history after a row past the open bin. */
  function LaterHistory<T>(h: seq<Bin<T>>, marked: bool, vec: T, gap: nat, zero: T): seq<Bin<T>> {
    h + [Bin(vec, marked)] + Zeros(zero, gap)
  }

  lemma {:induction false} LaterBin<T(!new)>(h: seq<Bin<T>>, rows: seq<Input<T>>, x: Input<T>, zero: T, j: nat)
    requires rows != [] && Ascending(rows) && rows[|rows| - 1].row.id < x.row.id
    requires |h| == rows[|rows| - 1].row.id - rows[0].row.id && j < x.row.id - rows[0].row.id
    requires j < |h| ==> BinMatches(h[j], rows, rows[0].row.id + j, zero)
    ensures var last := rows[|rows| - 1].row.id;
      var h' := LaterHistory(h, Marked(rows, last), x.vec, x.row.id - last - 1, zero);
      |h'| == x.row.id - rows[0].row.id && BinMatches(h'[j], rows + [x], rows[0].row.id + j, zero)
  {
    var first, last := rows[0].row.id, rows[|rows| - 1].row.id;
    Spliced(h, Bin(x.vec, Marked(rows, last)), x.row.id - last - 1, zero, j);
    hide BinMatches, Marked, Visited, Ascending, Zeros;
    if j < |h| {
      BinKept(h[j], rows, x, first + j, zero);
    } else if j == |h| {
      BinClosed(rows, x, zero);
    } else {
      BinSkipped(rows, x, first + j, zero);
    }
  }

  lemma {:induction false} PushLater<T>(s: Server<T>, id: int, marked: bool, row: Row, vec: T, n: nat, zero: T)
    requires s.current == Some((id, marked)) && id < row.id
    ensures var s' := Push(s, row, vec, n, zero).0;
      && s'.history == LaterHistory(s.history, marked, vec, row.id - id - 1, zero)
      && s'.current == Some((row.id, row.congested))
  {
  }

  lemma {:induction false} MatchesIntro<T(!new)>(s: Server<T>, rows: seq<Input<T>>, x: Input<T>, zero: T)
    requires rows != [] && s.current == Some((x.row.id, Marked(rows + [x], x.row.id)))
    requires |s.history| == x.row.id - rows[0].row.id
    requires forall j :: 0 <= j < |s.history| ==> BinMatches(s.history[j], rows + [x], rows[0].row.id + j, zero)
    ensures Matches(s, rows + [x], zero)
  {
    hide BinMatches, Marked;
    var all := rows + [x];
    assert all[0] == rows[0] && all[|all| - 1] == x;
  }

  /** A row past the open bin. */
  lemma {:induction false} MatchesLater<T(!new)>(s: Server<T>, rows: seq<Input<T>>, x: Input<T>, n: nat, zero: T)
    requires rows != [] && Ascending(rows) && rows[|rows| - 1].row.id < x.row.id && Matches(s, rows, zero)
    ensures Matches(Push(s, x.row, x.vec, n, zero).0, rows + [x], zero)
  {
    var s', last, id := Push(s, x.row, x.vec, n, zero).0, rows[|rows| - 1].row.id, x.row.id;
    hide Push, LaterHistory, BinMatches, Marked, Visited, Ascending;
    PushLater(s, last, Marked(rows, last), x.row, x.vec, n, zero);
    MarkedAppend(rows, x, id);
    NotVisited(rows, id);
    LaterBin(s.history, rows, x, zero, 0);
    forall j | 0 <= j < |s'.history|
      ensures BinMatches(s'.history[j], rows + [x], rows[0].row.id + j, zero)
    {
      LaterBin(s.history, rows, x, zero, j);
    }
    MatchesIntro(s', rows, x, zero);
  }

  lemma {:induction false} MatchesPush<T(!new)>(s: Server<T>, rows: seq<Input<T>>, x: Input<T>, n: nat, zero: T)
    requires rows != [] && Ascending(rows + [x]) && Matches(s, rows, zero)
    ensures Matches(Push(s, x.row, x.vec, n, zero).0, rows + [x], zero)
  {
    AscendingInit(rows, x);
    hide Push, Matches, Ascending;
    if x.row.id == rows[|rows| - 1].row.id {
      MatchesSame(s, rows, x, n, zero);
    } else {
      MatchesLater(s, rows, x, n, zero);
    }
  }

  // ---------- the ring ----------

  lemma {:induction false} NextCell(head: nat, len: nat)
    requires head < len
    ensures (head + 1) % len == if head + 1 == len then 0 else head + 1
  {
  }

  class BinRing<T> {
    const zero: T
    const len: nat
    const bins: array<T>
    const hasCong: array<bool>
    var head: nat
    var count: nat
    /** The last `len` completed bins, oldest first. */
    ghost var window: seq<Bin<T>>

    ghost predicate Valid()
      reads this, bins, hasCong
    {
      && len > 0 && bins.Length == len && hasCong.Length == len && head < len && |window| == len
      && bins as object != hasCong as object
      && forall k :: 0 <= k < len ==>
           window[Age(k)].vec == bins[k] && window[Age(k)].congested == hasCong[k]
    }

    /** The window index of ring cell `k`. */
    ghost function Age(k: int): int
      reads this
    {
      if k >= head then k - head else k - head + len
    }

    constructor (zero: T, len: nat)
      requires len > 0
      ensures Valid() && this.zero == zero && this.len == len && count == 0
      ensures window == Zeros(zero, len) && fresh(bins) && fresh(hasCong)
    {
      this.zero, this.len := zero, len;
      bins := new T[len](_ => zero);
      hasCong := new bool[len](_ => false);
      head, count := 0, 0;
      window := Zeros(zero, len);
    }

    /** Writing one completed bin at the head drops the oldest. */
    method Put(vec: T, congested: bool)
      requires Valid()
      modifies this, bins, hasCong
      ensures Valid() && window == old(window)[1..] + [Bin(vec, congested)] && count == old(count) + 1
    {
      var cell := head;
      ghost var before := window;
      bins[cell] := vec;
      hasCong[cell] := congested;
      window := window[1..] + [Bin(vec, congested)];
      NextCell(head, len);
      head := (head + 1) % len;
      count := count + 1;
      forall k | 0 <= k < len
        ensures window[Age(k)].vec == bins[k] && window[Age(k)].congested == hasCong[k]
      {
        if k == cell {
          assert Age(k) == len - 1;
        } else {
          assert window[Age(k)] == before[Age(k) + 1];
          assert Age(k) + 1 == old(Age(k));
        }
      }
    }

    /** push, where it closes a bin: the bin and the capped gap leave the ring holding the last `len`
        bins of the uncapped history. */
    method CloseBin(vec: T, congested: bool, gap: nat, ghost history: seq<Bin<T>>) returns (added: nat)
      requires Valid() && window == Window(history, len, zero)
      modifies this, bins, hasCong
      ensures Valid() && added == 1 + Min(gap, len) && count == old(count) + added
      ensures window == Window(history + [Bin(vec, congested)] + Zeros(zero, gap), len, zero)
    {
      WindowPush(history, len, zero, Bin(vec, congested));
      Put(vec, congested);
      var capped := Min(gap, len);
      ghost var h := history + [Bin(vec, congested)];
      var k := 0;
      assert h + Zeros(zero, 0) == h;
      while k < capped
        invariant 0 <= k <= capped && Valid() && count == old(count) + 1 + k
        invariant window == Window(h + Zeros(zero, k), len, zero)
      {
        WindowPush(h + Zeros(zero, k), len, zero, Bin(zero, false));
        assert h + Zeros(zero, k) + [Bin(zero, false)] == h + Zeros(zero, k + 1);
        Put(zero, false);
        k := k + 1;
      }
      GapCapIsExact(h, len, zero, gap);
      added := 1 + capped;
    }

    /** get_sequence: the window's vectors in chronological order. */
    method GetSequence() returns (s: seq<T>)
      requires Valid()
      ensures |s| == len && forall i :: 0 <= i < len ==> s[i] == window[i].vec
    {
      s := [];
      for i := 0 to len
        invariant |s| == i && forall k :: 0 <= k < i ==> s[k] == window[k].vec
      {
        var cell := (head + i) % len;
        CellAge(i);
        s := s + [bins[cell]];
      }
    }

    lemma {:induction false} CellAge(i: nat)
      requires Valid() && i < len
      ensures 0 <= (head + i) % len < len && Age((head + i) % len) == i
    {
      if head + i < len {
        assert (head + i) % len == head + i;
      } else {
        assert (head + i) % len == head + i - len;
      }
    }

    /** window_has_congestion. */
    method HasCongestion() returns (any: bool)
      requires Valid()
      ensures any <==> AnyCongested(window)
    {
      any := false;
      for k := 0 to len
        invariant any <==> exists j :: 0 <= j < k && hasCong[j]
      {
        if hasCong[k] {
          any := true;
        }
      }
      if any {
        ghost var j :| 0 <= j < len && hasCong[j];
        assert window[Age(j)].congested;
      } else {
        forall i | 0 <= i < len
          ensures !window[i].congested
        {
          CellAge(i);
        }
      }
    }
  }

  /** The serve loop's state for one client: the aggregator and the cooldown. */
  class PredictionServer<T> {
    const ring: BinRing<T>
    const cooldownLen: nat
    var current: Option<(int, bool)>
    var cooldown: int
    ghost var history: seq<Bin<T>>
    ghost var fires: seq<nat>

    ghost function View(): Server<T>
      reads this, ring
    {
      Server(history, ring.count, current, cooldown, fires)
    }

    ghost predicate Valid()
      reads this, ring, ring.bins, ring.hasCong
    {
      && ring.Valid()
      && ring.window == Window(history, ring.len, ring.zero)
      && ServerOk(View(), ring.len, cooldownLen)
    }

    constructor (zero: T, len: nat, cooldownLen: nat)
      requires len > 0
      ensures Valid() && View() == Fresh() && fresh(ring) && fresh(ring.bins) && fresh(ring.hasCong)
    {
      ring := new BinRing(zero, len);
      this.cooldownLen := cooldownLen;
      current, cooldown, history, fires := None, 0, [], [];
      WindowFresh(len, zero);
      hide Window, Zeros, BinRing.Valid;
    }

    /** The ring and the history agree; holds between a push and the decision too. */
    ghost predicate Synced()
      reads this, ring, ring.bins, ring.hasCong
    {
      ring.Valid() && ring.window == Window(history, ring.len, ring.zero)
    }

    /** push with a row past the open bin. */
    method CloseOpenBin(id: int, marked: bool, row: Row, vec: T) returns (added: nat)
      requires Synced() && current == Some((id, marked)) && row.id != id
      modifies this`current, this`history, ring, ring.bins, ring.hasCong
      ensures Synced() && (View(), added) == Push(old(View()), row, vec, ring.len, ring.zero)
    {
      hide Window, Zeros;
      var gap := Gap(id, row.id);
      added := ring.CloseBin(vec, marked, gap, history);
      history := history + [Bin(vec, marked)] + Zeros(ring.zero, gap);
      current := Some((row.id, row.congested));
    }

    /** BinAggregator.push. */
    method PushRow(row: Row, vec: T) returns (added: nat)
      requires Valid()
      modifies this`current, this`history, ring, ring.bins, ring.hasCong
      ensures Valid() && (View(), added) == Push(old(View()), row, vec, ring.len, ring.zero)
    {
      PushKeeps(View(), row, vec, ring.len, ring.zero, cooldownLen);
      hide ServerOk, Window, BinRing.Valid;
      match current
      case None =>
        current := Some((row.id, row.congested));
        added := 0;
      case Some((id, marked)) =>
        if row.id == id {
          current := Some((id, marked || row.congested));
          added := 0;
        } else {
          added := CloseOpenBin(id, marked, row, vec);
        }
    }

    /** The cooldown and firing decision. */
    method DecideRow(added: nat, high: bool) returns (fired: bool)
      requires Synced()
      modifies this`cooldown, this`fires
      ensures Synced()
      ensures (View(), fired) == Decide(old(View()), added, high, ring.len, ring.zero, cooldownLen)
    {
      var congested := ring.HasCongestion();
      fired := false;
      if cooldown > 0 {
        cooldown := Max(0, cooldown - added);
      } else if congested {
      } else if high {
        fired := true;
        cooldown := cooldownLen;
        fires := fires + [ring.count];
      }
    }

    /** One row of the serve loop; `high` is the model's verdict should it be asked. */
    method OnRowArrived(row: Row, vec: T, high: bool) returns (fired: bool)
      requires Valid()
      modifies this, ring, ring.bins, ring.hasCong
      ensures Valid() && View() == OnRow(old(View()), row, vec, high, ring.len, ring.zero, cooldownLen)
      ensures fired <==> |fires| > |old(fires)|
    {
      RowKeeps(View(), row, vec, high, ring.len, ring.zero, cooldownLen);
      var added := PushRow(row, vec);
      fired := false;
      if added > 0 && ring.count >= ring.len {
        fired := DecideRow(added, high);
      }
    }
  }
}
