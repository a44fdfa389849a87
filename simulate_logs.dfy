/**
 * The log-replay client (simulator/simulate_logs.py): it connects to the
 * ingestion endpoint with a bounded number of attempts, skips the CSV header
 * and sends every data row as one comma-joined line, counting the lines it
 * sent.  A row whose send fails with a socket error is dropped, the client
 * reconnects, and it either resumes with the next row or stops.
 *
 * Sockets are replaced by a `Network` that says how each connection attempt
 * and each send turns out; sleeping is counted instead of timed.
 */
module SimulateLogs {

  // ---------------------------------------------------------------------------
  // The wire line format
  // ---------------------------------------------------------------------------

  /** Python's `sep.join(parts)`. */
  function Join(sep: string, parts: seq<string>): string
    decreases |parts|
  {
    if parts == [] then ""
    else if |parts| == 1 then parts[0]
    else parts[0] + sep + Join(sep, parts[1..])
  }

  /** The line sent for one CSV row: `",".join(row) + "\n"`. */
  function Line(row: seq<string>): string {
    Join(",", row) + "\n"
  }

  /** Cutting a text at every comma, as a plain comma-separated reader does. */
  function Split(s: string): (parts: seq<string>)
    ensures |parts| >= 1
    decreases |s|
  {
    if s == [] then [""]
    else if s[0] == ',' then [""] + Split(s[1..])
    else
      var rest := Split(s[1..]);
      [[s[0]] + rest[0]] + rest[1..]
  }

  lemma {:induction false} SplitField(f: string)
    requires ',' !in f
    ensures Split(f) == [f]
    decreases |f|
  {
    if f != [] {
      SplitField(f[1..]);
      assert [f[0]] + f[1..] == f;
    }
  }

  lemma {:induction false} SplitFieldThenRest(f: string, rest: string)
    requires ',' !in f
    ensures Split(f + "," + rest) == [f] + Split(rest)
    decreases |f|
  {
    var s := f + "," + rest;
    if f == [] {
      assert s[0] == ',' && s[1..] == rest;
    } else {
      assert s[0] == f[0] && s[1..] == f[1..] + "," + rest;
      SplitFieldThenRest(f[1..], rest);
      assert [f[0]] + f[1..] == f;
    }
  }

  /**
   * A row with at least one field and no comma inside any field is recovered
   * from its line: the text before the final newline splits back into the row.
   */
  lemma {:induction false} LineRoundTrip(row: seq<string>)
    requires |row| >= 1
    requires forall k :: 0 <= k < |row| ==> ',' !in row[k]
    ensures Line(row)[|Line(row)| - 1] == '\n'
    ensures Split(Line(row)[..|Line(row)| - 1]) == row
    decreases |row|
  {
    assert Line(row)[..|Line(row)| - 1] == Join(",", row);
    if |row| == 1 {
      SplitField(row[0]);
    } else {
      LineRoundTrip(row[1..]);
      assert Line(row[1..])[..|Line(row[1..])| - 1] == Join(",", row[1..]);
      SplitFieldThenRest(row[0], Join(",", row[1..]));
      assert [row[0]] + row[1..] == row;
    }
  }

  /**
   * A field holding a comma (a quoted CSV field) is not recovered: its line
   * reads back as one more field than the row had.
   */
  lemma CommaInFieldNotRecovered()
    ensures Line(["a", "b,c"]) == "a,b,c\n"
    ensures Split("a,b,c") == ["a", "b", "c"]
  {
    SplitField("c");
    SplitFieldThenRest("b", "c");
    assert "b" + "," + "c" == "b,c";
    SplitFieldThenRest("a", "b,c");
    assert "a" + "," + "b,c" == "a,b,c";
  }

  /** A blank CSV line (no fields) and a row with one empty field send the same line. */
  lemma BlankRowLine()
    ensures Line([]) == Line([""]) == "\n"
  {
  }

  // ---------------------------------------------------------------------------
  // The network and the connect policy
  // ---------------------------------------------------------------------------

  datatype SendResult = Delivered | SocketError | OtherError

  /**
   * The network as the client sees it: `connectSucceeds(n)` says whether the
   * n-th call of the run to `socket.create_connection` (counting from 0)
   * returns a socket, and `sendResult(i)` what `sendall` does with the line
   * of the i-th data row (a socket error, or another exception).
   */
  datatype Network = Network(connectSucceeds: nat -> bool, sendResult: nat -> SendResult)

  /** The `max_retries` that `send_logs` uses (the default of `connect_to_logstash`). */
  const MaxRetries: int := 10

  /**
   * The result of one `connect_to_logstash` call: whether it returned a
   * socket (rather than None), how many connection attempts it made and how
   * many times it slept.
   */
  datatype Connection = Connection(connected: bool, attempts: nat, sleeps: nat)

  /** The retry loop, entered with `retries` attempts already failed. */
  function ConnectFrom(maxRetries: int, succeeds: nat -> bool, first: nat, retries: nat): Connection
    decreases maxRetries - retries
  {
    if retries >= maxRetries then Connection(false, retries, retries)
    else if succeeds(first + retries) then Connection(true, retries + 1, retries)
    else if retries + 1 < maxRetries then ConnectFrom(maxRetries, succeeds, first, retries + 1)
    else Connection(false, retries + 1, retries)
  }

  /** `connect_to_logstash(host, port, maxRetries)` when earlier calls made `first` attempts. */
  function ConnectPolicy(maxRetries: int, succeeds: nat -> bool, first: nat): Connection {
    ConnectFrom(maxRetries, succeeds, first, 0)
  }

  lemma {:induction false} ConnectFromMeaning(maxRetries: int, succeeds: nat -> bool, first: nat, retries: nat)
    requires retries < maxRetries
    ensures var c := ConnectFrom(maxRetries, succeeds, first, retries);
      && retries < c.attempts <= maxRetries
      && c.sleeps == c.attempts - 1
      && (c.connected <==> exists n :: first + retries <= n < first + maxRetries && succeeds(n))
      && (c.connected ==> succeeds(first + c.attempts - 1))
      && (forall n :: first + retries <= n < first + c.attempts - 1 ==> !succeeds(n))
      && (!c.connected ==> c.attempts == maxRetries)
    decreases maxRetries - retries
  {
    if !succeeds(first + retries) && retries + 1 < maxRetries {
      ConnectFromMeaning(maxRetries, succeeds, first, retries + 1);
    }
  }

  /**
   * At most `maxRetries` attempts; a socket from the first attempt that
   * succeeds, after one sleep per failed attempt; None after `maxRetries`
   * failures and `maxRetries - 1` sleeps; no attempt at all when
   * `maxRetries <= 0`.
   */
  lemma ConnectPolicyMeaning(maxRetries: int, succeeds: nat -> bool, first: nat)
    ensures var c := ConnectPolicy(maxRetries, succeeds, first);
      && (maxRetries <= 0 ==> c == Connection(false, 0, 0))
      && (maxRetries > 0 ==> 1 <= c.attempts <= maxRetries && c.sleeps == c.attempts - 1)
      && (c.connected <==> exists n :: first <= n < first + maxRetries && succeeds(n))
      && (c.connected ==> succeeds(first + c.attempts - 1))
      && (forall n :: first <= n < first + c.attempts - 1 ==> !succeeds(n))
      && (!c.connected && maxRetries > 0 ==> c.attempts == maxRetries && c.sleeps == maxRetries - 1)
  {
    if maxRetries > 0 {
      ConnectFromMeaning(maxRetries, succeeds, first, 0);
    }
  }

  /** `connect_to_logstash`, whose earlier calls in the run made `first` attempts. */
  method ConnectToLogstash(maxRetries: int, network: Network, first: nat) returns (c: Connection)
    ensures c == ConnectPolicy(maxRetries, network.connectSucceeds, first)
    ensures c.attempts <= (if maxRetries > 0 then maxRetries else 0)
    ensures c.connected ==> c.attempts >= 1 && network.connectSucceeds(first + c.attempts - 1)
    ensures forall n :: first <= n < first + c.attempts - 1 ==> !network.connectSucceeds(n)
    ensures c.connected ==> c.sleeps == c.attempts - 1
    ensures !c.connected ==> c.attempts == (if maxRetries > 0 then maxRetries else 0)
    ensures !c.connected ==> c.sleeps == (if maxRetries > 0 then maxRetries - 1 else 0)
  {
    var retries: nat := 0;
    var sleeps: nat := 0;
    while retries < maxRetries
      invariant retries == 0 || retries < maxRetries
      invariant sleeps == retries
      invariant forall n :: first <= n < first + retries ==> !network.connectSucceeds(n)
      invariant retries < maxRetries ==>
        ConnectFrom(maxRetries, network.connectSucceeds, first, retries)
        == ConnectPolicy(maxRetries, network.connectSucceeds, first)
      decreases maxRetries - retries
    {
      if network.connectSucceeds(first + retries) {
        return Connection(true, retries + 1, sleeps);
      }
      retries := retries + 1;
      if retries < maxRetries {
        sleeps := sleeps + 1;
      } else {
        return Connection(false, retries, sleeps);
      }
    }
    return Connection(false, 0, 0);
  }

  // ---------------------------------------------------------------------------
  // The send loop
  // ---------------------------------------------------------------------------

  /** How a run of `send_logs` ends. */
  datatype End =
      /** The first connect failed: the run exits before the file is read. */
    | NoConnection
      /** The rows ran out; the total is reported and the socket closed. */
    | Finished
      /** Reconnecting after a socket error on data row `atRow` failed: the loop broke and, the socket being None, nothing is reported. */
    | Aborted(atRow: nat)

  /**
   * The state of a run: how it ended, the lines delivered on the wire in
   * order, `line_count`, and the connection attempts, retry sleeps and
   * pacing sleeps made so far.
   */
  datatype Replay = Replay(end: End, wire: seq<string>, lineCount: nat, attempts: nat, backoffSleeps: nat, paceSleeps: nat)

  /** The row loop from data row `i` on, in state `st`. */
  function SendFrom(data: seq<seq<string>>, network: Network, i: nat, st: Replay): Replay
    requires i <= |data|
    decreases |data| - i
  {
    if i == |data| then st
    else match network.sendResult(i)
      case Delivered =>
        SendFrom(data, network, i + 1,
          st.(wire := st.wire + [Line(data[i])], lineCount := st.lineCount + 1, paceSleeps := st.paceSleeps + 1))
      case OtherError => SendFrom(data, network, i + 1, st)
      case SocketError =>
        var c := ConnectPolicy(MaxRetries, network.connectSucceeds, st.attempts);
        var st' := st.(attempts := st.attempts + c.attempts, backoffSleeps := st.backoffSleeps + c.sleeps);
        if c.connected then SendFrom(data, network, i + 1, st') else st'.(end := Aborted(i))
  }

  /** A whole run of `send_logs` over the CSV rows `rows`, header included. */
  function ReplaySpec(rows: seq<seq<string>>, network: Network): Replay {
    var c := ConnectPolicy(MaxRetries, network.connectSucceeds, 0);
    var start := Replay(Finished, [], 0, c.attempts, c.sleeps, 0);
    if !c.connected then start.(end := NoConnection)
    else if rows == [] then start
    else SendFrom(rows[1..], network, 0, start)
  }

  /** `send_logs`: the rows are given as the file's CSV rows, header first. */
  method SendLogs(rows: seq<seq<string>>, network: Network) returns (run: Replay)
    ensures run == ReplaySpec(rows, network)
    ensures run.lineCount == |run.wire|
    ensures run.end == NoConnection ==> run.wire == []
  {
    ReplayMeaning(rows, network);
    var c := ConnectToLogstash(MaxRetries, network, 0);
    var attempts: nat, backoffSleeps: nat := c.attempts, c.sleeps;
    if !c.connected {
      return Replay(NoConnection, [], 0, attempts, backoffSleeps, 0);
    }
    if rows == [] {
      // `next(reader)` raises StopIteration, which the generic handler catches.
      return Replay(Finished, [], 0, attempts, backoffSleeps, 0);
    }
    var data := rows[1..];
    var wire: seq<string> := [];
    var lineCount: nat, paceSleeps: nat := 0, 0;
    var end := Finished;
    ghost var start := Replay(Finished, [], 0, attempts, backoffSleeps, 0);
    for i := 0 to |data|
      invariant end == Finished
      invariant SendFrom(data, network, i, Replay(end, wire, lineCount, attempts, backoffSleeps, paceSleeps))
                == SendFrom(data, network, 0, start)
    {
      match network.sendResult(i)
      case Delivered =>
        wire := wire + [Line(data[i])];
        lineCount := lineCount + 1;
        paceSleeps := paceSleeps + 1;
      case SocketError =>
        c := ConnectToLogstash(MaxRetries, network, attempts);
        attempts, backoffSleeps := attempts + c.attempts, backoffSleeps + c.sleeps;
        if !c.connected {
          end := Aborted(i);
          break;
        }
      case OtherError =>
    }
    return Replay(end, wire, lineCount, attempts, backoffSleeps, paceSleeps);
  }

  // ---------------------------------------------------------------------------
  // What a run delivers
  // ---------------------------------------------------------------------------

  /**
   * The data rows in `[lo, hi)` whose send succeeds: only such rows are
   * listed, in file order, each at most once.
   */
  function DeliveredIndices(send: nat -> SendResult, lo: nat, hi: nat): (idx: seq<nat>)
    ensures forall k :: 0 <= k < |idx| ==> lo <= idx[k] < hi && send(idx[k]) == Delivered
    ensures forall k, l :: 0 <= k < l < |idx| ==> idx[k] < idx[l]
    decreases hi - lo
  {
    if lo >= hi then []
    else (if send(lo) == Delivered then [lo] else []) + DeliveredIndices(send, lo + 1, hi)
  }

  /** Every row in range whose send succeeded is listed. */
  lemma {:induction false} DeliveredIndicesComplete(send: nat -> SendResult, lo: nat, hi: nat)
    ensures forall j :: lo <= j < hi && send(j) == Delivered ==> j in DeliveredIndices(send, lo, hi)
    decreases hi - lo
  {
    if lo < hi {
      DeliveredIndicesComplete(send, lo + 1, hi);
    }
  }

  /** The lines of the data rows at the given indices. */
  function LinesAt(data: seq<seq<string>>, idx: seq<nat>): (lines: seq<string>)
    requires forall k :: 0 <= k < |idx| ==> idx[k] < |data|
    ensures |lines| == |idx|
  {
    if idx == [] then [] else [Line(data[idx[0]])] + LinesAt(data, idx[1..])
  }

  /** Line `k` of `LinesAt(data, idx)` is the line of data row `idx[k]`. */
  lemma {:induction false} LinesAtIndex(data: seq<seq<string>>, idx: seq<nat>, k: nat)
    requires forall m :: 0 <= m < |idx| ==> idx[m] < |data|
    requires k < |idx|
    ensures LinesAt(data, idx)[k] == Line(data[idx[k]])
  {
    if k > 0 {
      LinesAtIndex(data, idx[1..], k - 1);
    }
  }

  /** Where the row loop from row `i` stops, and what the failed reconnect before an abort tried. */
  lemma {:induction false} SendFromStops(data: seq<seq<string>>, network: Network, i: nat, st: Replay)
    requires i <= |data| && st.end == Finished
    ensures var r := SendFrom(data, network, i, st);
      && (r.end == Finished || (r.end.Aborted? && i <= r.end.atRow < |data|))
      && (r.end.Aborted? ==> network.sendResult(r.end.atRow) == SocketError)
      && (r.end.Aborted? ==> forall n: nat :: r.attempts - MaxRetries <= n < r.attempts ==> !network.connectSucceeds(n))
      && st.attempts <= r.attempts
      && (r.end == Finished && r.attempts != st.attempts ==> network.connectSucceeds(r.attempts - 1))
    decreases |data| - i
  {
    if i < |data| {
      match network.sendResult(i)
      case Delivered =>
        SendFromStops(data, network, i + 1,
          st.(wire := st.wire + [Line(data[i])], lineCount := st.lineCount + 1, paceSleeps := st.paceSleeps + 1));
      case OtherError =>
        SendFromStops(data, network, i + 1, st);
      case SocketError =>
        var c := ConnectPolicy(MaxRetries, network.connectSucceeds, st.attempts);
        ConnectPolicyMeaning(MaxRetries, network.connectSucceeds, st.attempts);
        var st' := st.(attempts := st.attempts + c.attempts, backoffSleeps := st.backoffSleeps + c.sleeps);
        if c.connected {
          SendFromStops(data, network, i + 1, st');
        }
    }
  }

  /** A socket error whose reconnect fails breaks the loop at that row: nothing more is sent. */
  lemma ReconnectFailureBreaks(data: seq<seq<string>>, network: Network, i: nat, st: Replay)
    requires i < |data| && network.sendResult(i) == SocketError
    requires !ConnectPolicy(MaxRetries, network.connectSucceeds, st.attempts).connected
    ensures var r := SendFrom(data, network, i, st);
      r.end == Aborted(i) && r.wire == st.wire && r.lineCount == st.lineCount && r.paceSleeps == st.paceSleeps
  {
  }

  /** A socket error whose reconnect succeeds drops that row and resumes with the next one. */
  lemma ReconnectResumes(data: seq<seq<string>>, network: Network, i: nat, st: Replay)
    requires i < |data| && network.sendResult(i) == SocketError
    requires ConnectPolicy(MaxRetries, network.connectSucceeds, st.attempts).connected
    ensures SendFrom(data, network, i, st) == SendFrom(data, network, i + 1, AfterReconnect(network, st))
  {
  }

  /** Where the row loop from row `i` stops, as a row index. */
  function StopRow(data: seq<seq<string>>, network: Network, i: nat, st: Replay): (stop: nat)
    requires i <= |data| && st.end == Finished
    ensures i <= stop <= |data|
  {
    SendFromStops(data, network, i, st);
    var r := SendFrom(data, network, i, st);
    if r.end.Aborted? then r.end.atRow else |data|
  }

  /** The state after row `i` was delivered. */
  function AfterDelivery(data: seq<seq<string>>, i: nat, st: Replay): Replay
    requires i < |data|
  {
    st.(wire := st.wire + [Line(data[i])], lineCount := st.lineCount + 1, paceSleeps := st.paceSleeps + 1)
  }

  /** The state after a reconnect that followed a socket error. */
  function AfterReconnect(network: Network, st: Replay): Replay {
    var c := ConnectPolicy(MaxRetries, network.connectSucceeds, st.attempts);
    st.(attempts := st.attempts + c.attempts, backoffSleeps := st.backoffSleeps + c.sleeps)
  }

  /**
   * The row loop from row `i` adds to the wire the lines of the rows whose
   * send succeeded, from `i` up to where it stops, and counts each of them
   * once in `line_count` and in the pacing sleeps.
   */
  ghost predicate DeliversFrom(data: seq<seq<string>>, network: Network, i: nat, st: Replay)
    requires i <= |data| && st.end == Finished
  {
    var r := SendFrom(data, network, i, st);
    && r.wire == st.wire + LinesAt(data, DeliveredIndices(network.sendResult, i, StopRow(data, network, i, st)))
    && r.lineCount == st.lineCount + (|r.wire| - |st.wire|)
    && r.paceSleeps == st.paceSleeps + (|r.wire| - |st.wire|)
  }

  lemma DeliveredStep(data: seq<seq<string>>, network: Network, i: nat, st: Replay)
    requires i < |data| && st.end == Finished && network.sendResult(i) == Delivered
    requires DeliversFrom(data, network, i + 1, AfterDelivery(data, i, st))
    ensures DeliversFrom(data, network, i, st)
  {
    var send, st' := network.sendResult, AfterDelivery(data, i, st);
    var stop := StopRow(data, network, i, st);
    assert SendFrom(data, network, i, st) == SendFrom(data, network, i + 1, st');
    assert StopRow(data, network, i + 1, st') == stop;
    var rest := DeliveredIndices(send, i + 1, stop);
    var idx := DeliveredIndices(send, i, stop);
    assert idx == [i] + rest;
    assert idx[0] == i && idx[1..] == rest;
    assert LinesAt(data, idx) == [Line(data[i])] + LinesAt(data, rest);
    assert st.wire + LinesAt(data, idx) == st'.wire + LinesAt(data, rest);
  }

  lemma SkippedStep(data: seq<seq<string>>, network: Network, i: nat, st: Replay, st': Replay)
    requires i < |data| && st.end == Finished && st'.end == Finished
    requires SendFrom(data, network, i, st) == SendFrom(data, network, i + 1, st')
    requires network.sendResult(i) != Delivered
    requires st'.wire == st.wire && st'.lineCount == st.lineCount && st'.paceSleeps == st.paceSleeps
    requires DeliversFrom(data, network, i + 1, st')
    ensures DeliversFrom(data, network, i, st)
  {
    var send := network.sendResult;
    var stop := StopRow(data, network, i, st);
    assert StopRow(data, network, i + 1, st') == stop;
    assert DeliveredIndices(send, i, stop) == DeliveredIndices(send, i + 1, stop);
  }

  lemma AbortStep(data: seq<seq<string>>, network: Network, i: nat, st: Replay)
    requires i < |data| && st.end == Finished && network.sendResult(i) == SocketError
    requires !ConnectPolicy(MaxRetries, network.connectSucceeds, st.attempts).connected
    ensures DeliversFrom(data, network, i, st)
  {
    assert SendFrom(data, network, i, st) == AfterReconnect(network, st).(end := Aborted(i));
    assert StopRow(data, network, i, st) == i;
  }

  /** What the row loop from row `i` adds to the wire, and how it counts it. */
  lemma {:induction false} SendFromDelivers(data: seq<seq<string>>, network: Network, i: nat, st: Replay)
    requires i <= |data| && st.end == Finished
    ensures DeliversFrom(data, network, i, st)
    decreases |data| - i
  {
    if i == |data| {
      assert StopRow(data, network, i, st) == i;
    } else {
      match network.sendResult(i)
      case Delivered =>
        SendFromDelivers(data, network, i + 1, AfterDelivery(data, i, st));
        DeliveredStep(data, network, i, st);
      case OtherError =>
        SendFromDelivers(data, network, i + 1, st);
        SkippedStep(data, network, i, st, st);
      case SocketError =>
        if ConnectPolicy(MaxRetries, network.connectSucceeds, st.attempts).connected {
          SendFromDelivers(data, network, i + 1, AfterReconnect(network, st));
          SkippedStep(data, network, i, st, AfterReconnect(network, st));
        } else {
          AbortStep(data, network, i, st);
        }
    }
  }

  /**
   * A whole run: it ends without connecting exactly when the first
   * `MaxRetries` connection attempts all fail, and then sends nothing.
   * Otherwise the wire holds the lines of the data rows whose send succeeded,
   * in file order, up to the end of the file or up to the row whose
   * socket error was followed by a failed reconnect; `line_count` is the
   * number of lines on the wire.  A run that reports its total ends on a
   * live socket: its last connection attempt succeeded.
   */
  lemma ReplayMeaning(rows: seq<seq<string>>, network: Network)
    ensures var r := ReplaySpec(rows, network);
      var send := network.sendResult;
      && (r.end == NoConnection <==> forall n: nat :: n < MaxRetries ==> !network.connectSucceeds(n))
      && (r.end == NoConnection ==> r.wire == [] && r.attempts == MaxRetries && r.backoffSleeps == MaxRetries - 1)
      && (r.end == Finished ==> r.attempts >= 1 && network.connectSucceeds(r.attempts - 1))
      && r.lineCount == |r.wire| == r.paceSleeps
      && (|rows| <= 1 ==> r.wire == [])
      && (r.end == Finished && rows != [] ==>
            r.wire == LinesAt(rows[1..], DeliveredIndices(send, 0, |rows| - 1)))
      && (r.end.Aborted? ==>
            && r.end.atRow < |rows| - 1
            && send(r.end.atRow) == SocketError
            && r.wire == LinesAt(rows[1..], DeliveredIndices(send, 0, r.end.atRow))
            && forall n: nat :: r.attempts - MaxRetries <= n < r.attempts ==> !network.connectSucceeds(n))
  {
    var c := ConnectPolicy(MaxRetries, network.connectSucceeds, 0);
    ConnectPolicyMeaning(MaxRetries, network.connectSucceeds, 0);
    var start := Replay(Finished, [], 0, c.attempts, c.sleeps, 0);
    if c.connected && rows != [] {
      SendFromStops(rows[1..], network, 0, start);
      SendFromDelivers(rows[1..], network, 0, start);
    }
  }

  /** The header row is never sent: its contents do not change anything about a run. */
  lemma HeaderNeverSent(rows: seq<seq<string>>, header: seq<string>, network: Network)
    requires rows != []
    ensures ReplaySpec([header] + rows[1..], network) == ReplaySpec(rows, network)
  {
    assert ([header] + rows[1..])[1..] == rows[1..];
  }

  /**
   * Three data rows; the send of the second one fails with a socket error and
   * the reconnect succeeds on its second attempt.  The second row is dropped,
   * not resent: the wire holds the first and third lines, and two lines are
   * counted.
   */
  lemma DroppedRowScenario(header: seq<string>, r1: seq<string>, r2: seq<string>, r3: seq<string>)
    ensures var network := Network(n => n != 1, j => if j == 1 then SocketError else Delivered);
      ReplaySpec([header, r1, r2, r3], network)
      == Replay(Finished, [Line(r1), Line(r3)], 2, 3, 1, 2)
  {
    var network := Network(n => n != 1, j => if j == 1 then SocketError else Delivered);
    var data := [header, r1, r2, r3][1..];
    assert data == [r1, r2, r3];
    assert ConnectPolicy(MaxRetries, network.connectSucceeds, 0) == Connection(true, 1, 0);
    assert ConnectFrom(MaxRetries, network.connectSucceeds, 1, 1) == Connection(true, 2, 1);
    assert ConnectPolicy(MaxRetries, network.connectSucceeds, 1) == Connection(true, 2, 1);
    var s0 := Replay(Finished, [], 0, 1, 0, 0);
    var s1 := Replay(Finished, [Line(r1)], 1, 1, 0, 1);
    var s2 := Replay(Finished, [Line(r1)], 1, 3, 1, 1);
    var s3 := Replay(Finished, [Line(r1), Line(r3)], 2, 3, 1, 2);
    assert SendFrom(data, network, 3, s3) == s3;
    assert SendFrom(data, network, 2, s2) == SendFrom(data, network, 3, s3);
    assert SendFrom(data, network, 1, s1) == SendFrom(data, network, 2, s2);
    assert network.sendResult(0) == Delivered && data[0] == r1;
    assert s0.(wire := s0.wire + [Line(data[0])], lineCount := 1, paceSleeps := 1) == s1;
    assert SendFrom(data, network, 0, s0) == SendFrom(data, network, 1, s1);
  }
}
