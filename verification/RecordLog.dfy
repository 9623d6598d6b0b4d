/** Recording into runs of equal values, the log of what was recorded, and its replay after a restart. */
module RecordLogs {
  import opened Wrappers

  /** A protobuf value: any of the optional fields may be unset. The end timestamp is set once a run has grown. */
  datatype Value = Value(timestamp: nat, number: Option<real>, text: Option<string>, end: Option<nat>)

  datatype ValueStream = ValueStream(variable: string, values: seq<Value>)

  type Live = map<string, seq<Value>>

  // An unset protobuf field reads as its type's default.

  function NumberOf(v: Value): real {
    if v.number == None then 0.0 else v.number.value
  }

  function TextOf(v: Value): string {
    if v.text == None then "" else v.text.value
  }

  // ---------- recording one value ----------

  predicate SameNumber(last: Value, v: Value) {
    v.number.Some? && NumberOf(last) == v.number.value
  }

  predicate SameText(last: Value, v: Value) {
    v.text.Some? && TextOf(last) == v.text.value
  }

  /** The last run takes the value: the field that matched is set, and the run now ends at the value's time. */
  function Extended(last: Value, timestamp: nat, v: Value): Value {
    if SameNumber(last, v) then last.(number := v.number, end := Some(timestamp))
    else last.(text := v.text, end := Some(timestamp))
  }

  /** The last run takes the value. */
  predicate Grows(values: seq<Value>, v: Value) {
    var n := |values| - 1;
    n >= 0 && (SameNumber(values[n], v) || SameText(values[n], v))
  }

  function RecordIn(values: seq<Value>, timestamp: nat, v: Value): (r: seq<Value>)
    ensures r != []
  {
    var n := |values| - 1;
    if Grows(values, v) then values[n := Extended(values[n], timestamp, v)]
    else values + [v.(timestamp := timestamp)]
  }

  // ---------- the same, said without computing it ----------

  /** The value has this field set, and the run has the same in it, unset counting as 0 or as empty. */
  predicate NumberMatches(run: Value, v: Value) {
    v.number.Some? && v.number.value == match run.number { case None => 0.0 case Some(x) => x }
  }

  predicate TextMatches(run: Value, v: Value) {
    v.text.Some? && v.text.value == match run.text { case None => "" case Some(t) => t }
  }

  /** The run has taken the value: it starts where it did, ends at the value's time, and the field that matched is set. */
  predicate Took(last: Value, timestamp: nat, v: Value, run: Value) {
    && run.timestamp == last.timestamp && run.end == Some(timestamp)
    && if NumberMatches(last, v) then run.number == v.number && run.text == last.text
       else TextMatches(last, v) && run.text == v.text && run.number == last.number
  }

  ghost predicate Did(before: seq<Value>, timestamp: nat, v: Value, after: seq<Value>) {
    var n := |before| - 1;
    if n >= 0 && (NumberMatches(before[n], v) || TextMatches(before[n], v))
    then |after| == |before| && after[..n] == before[..n] && Took(before[n], timestamp, v, after[n])
    else |after| == |before| + 1 && after[..|before|] == before && after[|before|] == Value(timestamp, v.number, v.text, v.end)
  }

  function Get(live: Live, k: string): seq<Value> {
    if k in live then live[k] else []
  }

  function Recorded(live: Live, k: string, timestamp: nat, v: Value): Live {
    live[k := RecordIn(Get(live, k), timestamp, v)]
  }

  /** For each run, whether it has taken a value since the process started. */
  type Grown = map<string, seq<bool>>

  function GrowIn(values: seq<Value>, grown: seq<bool>, v: Value): (r: seq<bool>)
    requires |grown| == |values|
  {
    if Grows(values, v) then grown[|values| - 1 := true] else grown + [false]
  }

  function Marks(grown: Grown, k: string): seq<bool> {
    if k in grown then grown[k] else []
  }

  function Grew(grown: Grown, live: Live, k: string, v: Value): Grown
    requires |Marks(grown, k)| == |Get(live, k)|
  {
    grown[k := GrowIn(Get(live, k), Marks(grown, k), v)]
  }

  function NoneGrew(live: Live): Grown {
    map k | k in live :: seq(|live[k]|, _ => false)
  }

  // ---------- replaying a log ----------

  function ReplayValues(live: Live, k: string, values: seq<Value>): Live {
    if values == [] then live else
      var n := |values| - 1;
      Recorded(ReplayValues(live, k, values[..n]), k, values[n].timestamp, values[n])
  }

  function Replay(entries: seq<ValueStream>): Live {
    if entries == [] then map[] else
      var n := |entries| - 1;
      ReplayValues(Replay(entries[..n]), entries[n].variable, entries[n].values)
  }

  function Concat<A>(parts: seq<seq<A>>): seq<A> {
    if parts == [] then [] else parts[0] + Concat(parts[1..])
  }

  lemma {:induction false} ConcatMore<A>(parts: seq<seq<A>>, part: seq<A>)
    ensures Concat(parts + [part]) == Concat(parts) + part
  {
    if parts == [] {
      assert Concat([part]) == part + Concat([]);
    } else {
      assert (parts + [part])[1..] == parts[1..] + [part];
      ConcatMore(parts[1..], part);
    }
  }

  lemma ConcatHead<A>(parts: seq<seq<A>>)
    requires parts != []
    ensures Concat(parts) == parts[0][0..] + Concat(parts[1..])
  {
  }

  lemma NothingToConcat<A>()
    ensures Concat<A>([]) == []
  {
  }

  lemma FileIsOver<A>(file: seq<A>, rest: seq<A>)
    ensures file[|file|..] + rest == rest
  {
  }

  lemma FileGoesOn<A>(file: seq<A>, i: nat, rest: seq<A>)
    requires i < |file|
    ensures (file[i..] + rest)[0] == file[i] && (file[i..] + rest)[1..] == file[i + 1..] + rest
  {
  }

  lemma MovedOver<A>(a: seq<A>, b: seq<A>, c: seq<A>, n: nat)
    requires n <= |c|
    ensures a + (b + c[..n]) + c[n..] == a + b + c
  {
    assert c[..n] + c[n..] == c;
  }

  // ---------- the log ----------

  /** The log in memory, the rotated log files from the oldest on, and the file now written to. */
  class RecordLog {
    var log: seq<ValueStream>
    var rotated: seq<seq<ValueStream>>
    var current: seq<ValueStream>
    var replayFiles: seq<seq<ValueStream>>
    var reader: Option<nat>

    ghost predicate Valid()
      reads this
    {
      reader.Some? ==> replayFiles != [] && reader.value <= |replayFiles[0]|
    }

    /** Everything in the files, in order. */
    ghost function OnFile(): seq<ValueStream>
      reads this
    {
      Concat(rotated) + current
    }

    ghost function Everything(): seq<ValueStream>
      reads this
    {
      OnFile() + log
    }

    /** What the replay in progress has still to return; a replay that is over starts again. */
    ghost function Pending(): seq<ValueStream>
      requires Valid()
      reads this
    {
      if replayFiles == [] then OnFile()
      else if reader == None then Concat(replayFiles)
      else replayFiles[0][reader.value..] + Concat(replayFiles[1..])
    }

    /** Open the log in a directory with these files. */
    constructor (rotated: seq<seq<ValueStream>>, current: seq<ValueStream>)
      ensures Valid() && OnFile() == Concat(rotated) + current && log == [] && Pending() == OnFile()
      ensures replayFiles == []
    {
      this.rotated, this.current := rotated, current;
      log, replayFiles, reader := [], [], None;
    }

    method AddStream(stream: ValueStream)
      requires Valid()
      modifies this`log
      ensures Valid() && log == old(log) + [stream] && Everything() == old(Everything()) + [stream]
    {
      log := log + [stream];
    }

    method Add(variable: string, value: Value)
      requires Valid()
      modifies this`log
      ensures Valid() && log == old(log) + [ValueStream(variable, [value])]
      ensures Everything() == old(Everything()) + [ValueStream(variable, [value])]
    {
      AddStream(ValueStream(variable, [value]));
    }

    /** Write the log out until a write fails, if one does: `room` is how many succeed. What was written leaves the log, and
        the answer is true even when something is left; it is false only when the file cannot be opened, which throws. */
    method Flush(opens: bool, room: nat) returns (ok: bool)
      requires Valid()
      modifies this`log, this`current
      ensures Valid() && Everything() == old(Everything())
      ensures ok <==> opens || old(log) == []
      ensures log == if !opens then old(log) else if room < |old(log)| then old(log)[room..] else []
    {
      if |log| == 0 {
        return true;
      }
      if !opens {
        return false;
      }
      var done := 0;
      while done < |log|
        invariant done <= |log| && done <= room && log == old(log) && current == old(current) + log[..done]
      {
        if done == room {
          break;
        }
        assert log[..done + 1] == log[..done] + [log[done]];
        current := current + [log[done]];
        done := done + 1;
      }
      MovedOver(Concat(rotated), old(current), log, done);
      if done > 0 {
        log := log[done..];
      }
      return true;
    }

    /** RotateRecordLog, when the file has grown too large. */
    method Rotate()
      requires Valid()
      modifies this`rotated, this`current
      ensures Valid() && OnFile() == old(OnFile()) && current == [] && log == old(log)
    {
      ConcatMore(rotated, current);
      rotated := rotated + [current];
      current := [];
    }

    /** The next entry of the files, from the oldest file on; none at the end, and then the replay starts again. */
    method ReplayLog() returns (stream: Option<ValueStream>)
      requires Valid()
      modifies this`replayFiles, this`reader
      ensures Valid()
      ensures old(Pending()) == [] ==> stream == None && replayFiles == []
      ensures old(Pending()) != [] ==> stream == Some(old(Pending())[0]) && replayFiles != [] && Pending() == old(Pending())[1..]
    {
      hide Concat;
      if |replayFiles| == 0 {
        replayFiles := rotated;
        ConcatMore(rotated, current);
        replayFiles := replayFiles + [current];
      }
      ghost var pending := old(Pending());
      while |replayFiles| > 0
        invariant Valid()
        invariant replayFiles != [] ==> Pending() == pending
        invariant replayFiles == [] ==> pending == []
        decreases |replayFiles|
      {
        if reader == None {
          ConcatHead(replayFiles);
          reader := Some(0);
        }
        if reader.value == |replayFiles[0]| {
          FileIsOver(replayFiles[0], Concat(replayFiles[1..]));
          NothingToConcat<ValueStream>();
          reader := None;
          replayFiles := replayFiles[1..];
          continue;
        }
        FileGoesOn(replayFiles[0], reader.value, Concat(replayFiles[1..]));
        stream := Some(replayFiles[0][reader.value]);
        reader := Some(reader.value + 1);
        return;
      }
      return None;
    }
  }

  // ---------- the datastore ----------

  class DiskDatastore {
    var live: Live
    const recordLog: RecordLog
    ghost var grown: Grown

    /** What a replay of everything logged gives is what is in memory, run for run, but for the ends of runs that have grown. */
    ghost predicate Valid()
      reads this, recordLog
    {
      recordLog.Valid() && LiveReset(live, Replay(recordLog.Everything()), grown)
    }

    /** Start on a log: replay it. */
    constructor (recordLog: RecordLog)
      requires recordLog.Valid() && recordLog.replayFiles == [] && recordLog.log == []
      modifies recordLog
      ensures Valid() && this.recordLog == recordLog && live == Replay(recordLog.OnFile()) && grown == NoneGrew(live)
      ensures recordLog.OnFile() == old(recordLog.OnFile()) && recordLog.log == [] && recordLog.replayFiles == []
    {
      this.recordLog := recordLog;
      live := map[];
      new;
      ReplayRecordLog();
      grown := NoneGrew(live);
      NothingGrew(live);
      assert recordLog.OnFile() + [] == recordLog.OnFile();
    }

    method ReplayRecordLog()
      requires recordLog.Valid() && recordLog.replayFiles == [] && live == map[]
      modifies this`live, recordLog`replayFiles, recordLog`reader
      ensures recordLog.Valid() && recordLog.replayFiles == [] && live == Replay(recordLog.OnFile())
    {
      hide Replay, ReplayValues, Concat;
      ghost var all, i := recordLog.OnFile(), 0;
      ReplayNothing(all);
      var stream := recordLog.ReplayLog();
      while stream != None
        invariant recordLog.Valid() && i <= |all| && recordLog.OnFile() == all
        invariant stream == None ==> recordLog.replayFiles == [] && i == |all|
        invariant stream != None ==> recordLog.replayFiles != [] && i < |all| && stream.value == all[i]
        invariant stream != None ==> recordLog.Pending() == all[i + 1..]
        invariant live == Replay(all[..i])
        decreases |all| - i
      {
        ReplayEntry(stream.value);
        ReplayNext(all, i);
        stream := recordLog.ReplayLog();
        i := i + 1;
      }
      assert all[..i] == all;
    }

    method ReplayEntry(entry: ValueStream)
      modifies this`live
      ensures live == ReplayValues(old(live), entry.variable, entry.values)
    {
      ghost var before := live;
      for i := 0 to |entry.values|
        invariant live == ReplayValues(before, entry.variable, entry.values[..i])
      {
        assert entry.values[..i + 1][..i] == entry.values[..i];
        var value := RecordNoLog(entry.variable, entry.values[i].timestamp, entry.values[i]);
      }
      assert entry.values[..|entry.values|] == entry.values;
    }

    /** Add a value to its variable's runs; the run it ended up in is returned: the last one, which now ends at the value's
        time, if a field that the value has set is the same there (an unset one being 0 or empty), and else a new one. */
    method RecordNoLog(variable: string, timestamp: nat, value: Value) returns (run: Value)
      modifies this`live
      ensures live == Recorded(old(live), variable, timestamp, value)
      ensures run == live[variable][|live[variable]| - 1]
      ensures Did(Get(old(live), variable), timestamp, value, live[variable])
      ensures forall k :: k in old(live) && k != variable ==> k in live && live[k] == old(live)[k]
      ensures live.Keys == old(live).Keys + {variable}
    {
      if variable !in live {
        live := live[variable := []];
      }
      var values := live[variable];
      if |values| > 0 {
        var n := |values| - 1;
        var last := values[n];
        if value.number.Some? && NumberOf(last) == value.number.value {
          last := last.(number := value.number);
          last := last.(end := Some(timestamp));
          live := live[variable := values[n := last]];
          return last;
        }
        if value.text.Some? && TextOf(last) == value.text.value {
          last := last.(text := value.text);
          last := last.(end := Some(timestamp));
          live := live[variable := values[n := last]];
          return last;
        }
      }
      run := value.(timestamp := timestamp);
      live := live[variable := values + [run]];
    }

    /** Record a value and log the run it ended up in. */
    method Record(variable: string, timestamp: nat, value: Value)
      requires Valid()
      modifies this, recordLog`log
      ensures Valid() && live == Recorded(old(live), variable, timestamp, value)
      ensures |Marks(old(grown), variable)| == |Get(old(live), variable)| && grown == Grew(old(grown), old(live), variable, value)
      ensures recordLog.Everything() ==
        old(recordLog.Everything()) + [ValueStream(variable, [live[variable][|live[variable]| - 1]])]
    {
      ghost var before := live;
      ghost var logged := recordLog.Everything();
      var run := RecordNoLog(variable, timestamp, value);
      recordLog.Add(variable, run);
      LoggedIsReplayed(before, logged, grown, variable, timestamp, value);
      grown := Grew(grown, before, variable, value);
    }

    /** Once everything logged is in the files, a restart rebuilds every variable's runs, each with the end it had if and only
        if it has not grown since the process started, or has grown to its own start. */
    lemma FlushedIsRebuilt()
      requires Valid() && recordLog.log == []
      ensures var after := Replay(recordLog.OnFile());
        && SameLive(live, after)
        && forall k, i :: k in live && 0 <= i < |live[k]| ==> i < |after[k]| && i < |grown[k]| && EndKeptIff(live[k][i], after[k][i], grown[k][i])
    {
      assert recordLog.OnFile() + [] == recordLog.OnFile();
    }
  }

  lemma ReplayNothing(entries: seq<ValueStream>)
    ensures Replay(entries[..0]) == map[] && entries[0..] == entries
  {
  }

  lemma ReplayNext(entries: seq<ValueStream>, i: nat)
    requires i < |entries|
    ensures Replay(entries[..i + 1]) == ReplayValues(Replay(entries[..i]), entries[i].variable, entries[i].values)
  {
    assert entries[..i + 1][..i] == entries[..i];
  }

  // ---------- replay rebuilds the runs ----------

  /** The same run, but for which unset fields have been set to their default, and for its end. */
  predicate SameRun(a: Value, b: Value) {
    a.timestamp == b.timestamp && NumberOf(a) == NumberOf(b) && TextOf(a) == TextOf(b)
  }

  ghost predicate SameRuns(a: seq<Value>, b: seq<Value>) {
    |a| == |b| && forall i :: 0 <= i < |a| ==> SameRun(a[i], b[i])
  }

  ghost predicate SameLive(a: Live, b: Live) {
    a.Keys == b.Keys && forall k :: k in a ==> SameRuns(a[k], b[k])
  }

  /** Replaying the run that a value ended up in does to the replayed runs what recording it did to the live ones. */
  lemma RunIsReplayed(a: seq<Value>, b: seq<Value>, timestamp: nat, v: Value)
    requires SameRuns(a, b)
    ensures var a' := RecordIn(a, timestamp, v);
      var run := a'[|a'| - 1];
      SameRuns(a', RecordIn(b, run.timestamp, run))
  {
    var a' := RecordIn(a, timestamp, v);
    var run := a'[|a'| - 1];
    var n := |a| - 1;
    if n >= 0 {
      assert SameRun(a[n], b[n]);
    }
  }

  lemma ReplayOne(logged: seq<ValueStream>, k: string, run: Value)
    ensures Replay(logged + [ValueStream(k, [run])]) == Recorded(Replay(logged), k, run.timestamp, run)
  {
    assert (logged + [ValueStream(k, [run])])[..|logged|] == logged;
    assert [run][..0] == [];
    assert ReplayValues(Replay(logged), k, []) == Replay(logged);
  }

  /** An entry with several values replays as entries with one value each, in order. */
  lemma {:induction false} ReplaySplits(live: Live, k: string, a: seq<Value>, b: seq<Value>)
    ensures ReplayValues(live, k, a + b) == ReplayValues(ReplayValues(live, k, a), k, b)
  {
    hide RecordIn;
    if b == [] {
      assert a + b == a;
    } else {
      assert (a + b)[..|a + b| - 1] == a + b[..|b| - 1];
      ReplaySplits(live, k, a, b[..|b| - 1]);
    }
  }

  // ---------- what replay loses ----------

  /** A run that has grown ends at its own start after a replay; one that has not keeps its end. */
  predicate EndReset(live: Value, replayed: Value, grown: bool) {
    SameRun(live, replayed) && replayed.end == if grown then Some(live.timestamp) else live.end
  }

  predicate EndKeptIff(live: Value, replayed: Value, grown: bool) {
    replayed.end == live.end <==> !grown || live.end == Some(live.timestamp)
  }

  ghost predicate EndsReset(a: seq<Value>, b: seq<Value>, grown: seq<bool>) {
    |a| == |b| == |grown| && forall i :: 0 <= i < |a| ==> EndReset(a[i], b[i], grown[i])
  }

  ghost predicate LiveReset(live: Live, replayed: Live, grown: Grown) {
    && live.Keys == replayed.Keys == grown.Keys
    && forall k :: k in live ==> EndsReset(live[k], replayed[k], grown[k])
  }

  lemma ReplayResetsEnds(a: seq<Value>, b: seq<Value>, grown: seq<bool>, timestamp: nat, v: Value)
    requires EndsReset(a, b, grown)
    ensures var a' := RecordIn(a, timestamp, v);
      var run := a'[|a'| - 1];
      EndsReset(a', RecordIn(b, run.timestamp, run), GrowIn(a, grown, v))
  {
    assert SameRuns(a, b);
    RunIsReplayed(a, b, timestamp, v);
    var a' := RecordIn(a, timestamp, v);
    var run := a'[|a'| - 1];
    var n := |a| - 1;
    if n >= 0 {
      assert EndReset(a[n], b[n], grown[n]);
    }
  }

  /** Just after a start memory is the replay, and nothing has grown. */
  lemma NothingGrew(live: Live)
    ensures LiveReset(live, live, NoneGrew(live))
  {
  }

  lemma LiveResetAt(live: Live, replayed: Live, grown: Grown, k: string)
    requires LiveReset(live, replayed, grown)
    ensures EndsReset(Get(live, k), Get(replayed, k), Marks(grown, k))
  {
  }

  lemma LoggedIsReplayed(live: Live, logged: seq<ValueStream>, grown: Grown, k: string, timestamp: nat, v: Value)
    requires LiveReset(live, Replay(logged), grown)
    ensures |Marks(grown, k)| == |Get(live, k)|
    ensures var after := Recorded(live, k, timestamp, v);
      LiveReset(after, Replay(logged + [ValueStream(k, [after[k][|after[k]| - 1]])]), Grew(grown, live, k, v))
  {
    var after := Recorded(live, k, timestamp, v);
    var run := after[k][|after[k]| - 1];
    ReplayOne(logged, k, run);
    LiveResetAt(live, Replay(logged), grown, k);
    hide RecordIn, EndsReset, GrowIn, Replay, ReplayValues;
    ReplayResetsEnds(Get(live, k), Get(Replay(logged), k), Marks(grown, k), timestamp, v);
  }

  // ---------- whole logs ----------

  datatype Point = Point(variable: string, timestamp: nat, value: Value)

  /** What a process has in memory and in its log, and which runs have grown. */
  datatype Session = Session(live: Live, grown: Grown, entries: seq<ValueStream>)

  /** A process that starts on these files and records these points. */
  ghost function After(files: seq<ValueStream>, points: seq<Point>): (s: Session)
    ensures LiveReset(s.live, Replay(s.entries), s.grown)
  {
    if points == [] then
      NothingGrew(Replay(files));
      Session(Replay(files), NoneGrew(Replay(files)), files)
    else
      var n := |points| - 1;
      var s, p := After(files, points[..n]), points[n];
      LoggedIsReplayed(s.live, s.entries, s.grown, p.variable, p.timestamp, p.value);
      var live := Recorded(s.live, p.variable, p.timestamp, p.value);
      Session(live, Grew(s.grown, s.live, p.variable, p.value),
        s.entries + [ValueStream(p.variable, [live[p.variable][|live[p.variable]| - 1]])])
  }

  /** Over a whole log: the next process has the same runs, and a run's end survives if and only if the run has not grown
      since the files were read, or has grown to its own start. */
  lemma EndSurvivesIff(files: seq<ValueStream>, points: seq<Point>, k: string, i: nat)
    requires k in After(files, points).live && i < |After(files, points).live[k]|
    ensures var s := After(files, points);
      var next := After(s.entries, []).live;
      && k in next && |next[k]| == |s.live[k]| == |Marks(s.grown, k)|
      && SameRun(s.live[k][i], next[k][i])
      && (next[k][i].end == s.live[k][i].end <==> !s.grown[k][i] || s.live[k][i].end == Some(s.live[k][i].timestamp))
  {
    var s := After(files, points);
    assert EndsReset(s.live[k], Replay(s.entries)[k], s.grown[k]);
    assert EndReset(s.live[k][i], Replay(s.entries)[k][i], s.grown[k][i]);
    hide Replay;
  }

  lemma AfterOneMore(files: seq<ValueStream>, points: seq<Point>, p: Point)
    ensures var s, s' := After(files, points), After(files, points + [p]);
      && s'.live == Recorded(s.live, p.variable, p.timestamp, p.value)
      && Replay(s'.entries) == Recorded(Replay(s.entries), p.variable,
           s'.live[p.variable][|s'.live[p.variable]| - 1].timestamp, s'.live[p.variable][|s'.live[p.variable]| - 1])
  {
    hide Replay, RecordIn, LiveReset, Grew, NoneGrew;
    assert (points + [p])[..|points|] == points;
    var s, s' := After(files, points), After(files, points + [p]);
    ReplayOne(s.entries, p.variable, s'.live[p.variable][|s'.live[p.variable]| - 1]);
  }

  lemma OneRun(x: Value)
    requires x.number.Some? && x.end == None && x.timestamp == 1
    ensures RecordIn([], 1, x) == [x] && RecordIn([x], 2, x) == [x.(end := Some(2))]
    ensures RecordIn([x], 1, x.(end := Some(2))) == [x.(end := Some(1))]
  {
  }

  lemma NothingYet()
    ensures After([], []).live == map[] == Replay(After([], []).entries)
  {
  }

  lemma FirstPoint(x: Value, p: Point)
    requires x.number.Some? && x.end == None && x.timestamp == 1 && p == Point("x", 1, x)
    ensures var s := After([], [p]); s.live == map["x" := [x]] == Replay(s.entries)
  {
    hide After, Replay, RecordIn, LiveReset;
    NothingYet();
    OneRun(x);
    assert [] + [p] == [p];
    AfterOneMore([], [], p);
  }

  /** Two equal values at times 1 and 2 are one run from 1 to 2, and from 1 to 1 after a restart. */
  lemma EndLost(x: Value)
    requires x.number.Some? && x.end == None && x.timestamp == 1
    ensures var s := After([], [Point("x", 1, x), Point("x", 2, x)]);
      s.live == map["x" := [x.(end := Some(2))]] && After(s.entries, []).live == map["x" := [x.(end := Some(1))]]
  {
    hide After, Replay, RecordIn, LiveReset;
    var p, q := Point("x", 1, x), Point("x", 2, x);
    FirstPoint(x, p);
    assert [p] + [q] == [p, q];
    OneRun(x);
    AfterOneMore([], [p], q);
    StartIsReplay(After([], [p, q]).entries);
  }

  lemma StartIsReplay(files: seq<ValueStream>)
    ensures After(files, []).live == Replay(files)
  {
  }

  /** When nothing was on file and no value brings an end of its own, the runs that have grown are those with an end. */
  lemma {:induction false} GrownHasEnd(points: seq<Point>, k: string)
    requires forall p :: p in points ==> p.value.end == None
    ensures var s := After([], points);
      k in s.live ==> |s.grown[k]| == |s.live[k]| && forall i :: 0 <= i < |s.live[k]| ==> (s.grown[k][i] <==> s.live[k][i].end.Some?)
  {
    if points != [] {
      var n := |points| - 1;
      GrownHasEnd(points[..n], k);
      var s, p := After([], points[..n]), points[n];
      assert p in points;
      LiveResetAt(s.live, Replay(s.entries), s.grown, p.variable);
      if k == p.variable {
        GrownEnds(Get(s.live, k), Marks(s.grown, k), p.timestamp, p.value);
      }
      hide Replay, RecordIn, GrowIn;
    }
  }

  lemma GrownEnds(a: seq<Value>, grown: seq<bool>, timestamp: nat, v: Value)
    requires |grown| == |a| && v.end == None && forall i :: 0 <= i < |a| ==> (grown[i] <==> a[i].end.Some?)
    ensures var a', grown' := RecordIn(a, timestamp, v), GrowIn(a, grown, v);
      |a'| == |grown'| && forall i :: 0 <= i < |a'| ==> (grown'[i] <==> a'[i].end.Some?)
  {
  }

  // ---------- what runs say ----------

  /** What a client records: a number or a text. */
  datatype Datum = Number(number: real) | Text(text: string)

  datatype Sample = Sample(timestamp: nat, datum: Datum)

  function Given(s: Sample): Value {
    match s.datum
    case Number(x) => Value(s.timestamp, Some(x), None, None)
    case Text(t) => Value(s.timestamp, None, Some(t), None)
  }

  /** The run has the datum in the field for it. */
  predicate Holds(run: Value, d: Datum) {
    match d
    case Number(x) => run.number == Some(x)
    case Text(t) => run.text == Some(t)
  }

  /** The runs of a sequence of samples. */
  function Runs(samples: seq<Sample>): seq<Value> {
    if samples == [] then [] else
      var n := |samples| - 1;
      RecordIn(Runs(samples[..n]), samples[n].timestamp, Given(samples[n]))
  }

  /** Run i is the samples from starts[i] up to the next start: all of one datum, the run's, which differs from the next
      run's; it begins at the first's time and, when there is more than one, ends at the last's. */
  ghost predicate RunLength(samples: seq<Sample>, runs: seq<Value>, starts: seq<nat>) {
    && |starts| == |runs| && Cuts(|samples|, starts)
    && AllRuns(samples, runs, starts)
    && NeighboursDiffer(runs)
  }

  /** The starts cut 0 to n into non-empty pieces. */
  ghost predicate Cuts(n: nat, starts: seq<nat>) {
    && (n == 0 <==> starts == []) && (starts != [] ==> starts[0] == 0)
    && forall i :: 0 <= i < |starts| ==> starts[i] < StartAfter(n, starts, i) <= n
  }

  function StartAfter(n: nat, starts: seq<nat>, i: nat): nat
    requires i < |starts|
  {
    if i + 1 < |starts| then starts[i + 1] else n
  }

  ghost predicate AllRuns(samples: seq<Sample>, runs: seq<Value>, starts: seq<nat>)
    requires |starts| == |runs|
  {
    forall i :: 0 <= i < |runs| ==> IsRun(samples, runs[i], starts[i], StartAfter(|samples|, starts, i))
  }

  predicate SameFields(a: Value, b: Value) {
    a.number == b.number && a.text == b.text
  }

  ghost predicate NeighboursDiffer(runs: seq<Value>) {
    forall i :: 0 <= i < |runs| - 1 ==> !SameFields(runs[i], runs[i + 1])
  }

  ghost predicate IsRun(samples: seq<Sample>, run: Value, from: nat, to: nat) {
    && from < to <= |samples|
    && run.timestamp == samples[from].timestamp
    && run.end == (if to - from == 1 then None else Some(samples[to - 1].timestamp))
    && forall j :: from <= j < to ==> SameFields(run, Given(samples[j]))
  }

  /** The sample at j is a 0 after a text or an empty text after a number: a run cannot tell it from an unset field. */
  predicate Blurs(samples: seq<Sample>, j: nat)
    requires 0 < j < |samples|
  {
    match samples[j].datum
    case Number(x) => x == 0.0 && samples[j - 1].datum.Text?
    case Text(t) => t == "" && samples[j - 1].datum.Number?
  }

  ghost predicate Clear(samples: seq<Sample>) {
    forall j :: 0 < j < |samples| ==> !Blurs(samples, j)
  }

  lemma ClearBefore(samples: seq<Sample>, n: nat)
    requires n <= |samples| && Clear(samples)
    ensures Clear(samples[..n])
  {
    forall j | 0 < j < n ensures !Blurs(samples[..n], j) {
      assert !Blurs(samples, j);
    }
  }

  /** One more sample of the last run's datum makes that run longer. */
  lemma RunGrows(samples: seq<Sample>, s: Sample, run: Value, from: nat)
    requires IsRun(samples, run, from, |samples|) && SameFields(run, Given(s))
    ensures IsRun(samples + [s], Extended(run, s.timestamp, Given(s)), from, |samples| + 1)
  {
  }

  lemma RunStays(samples: seq<Sample>, s: Sample, run: Value, from: nat, to: nat)
    requires IsRun(samples, run, from, to)
    ensures IsRun(samples + [s], run, from, to)
  {
  }

  lemma RunBegins(samples: seq<Sample>, s: Sample)
    ensures IsRun(samples + [s], Given(s), |samples|, |samples| + 1)
  {
  }

  /** Recording is run-length encoding, and no two neighbouring runs have one datum, when no sample blurs into the run before. */
  lemma {:induction false} RunsAreRunLength(samples: seq<Sample>) returns (starts: seq<nat>)
    requires Clear(samples)
    ensures RunLength(samples, Runs(samples), starts)
  {
    hide RunLength, RecordIn, SameFields, Clear;
    if samples == [] {
      starts := [];
      assert RunLength([], [], []) by { NoRuns(); }
      return;
    }
    var n := |samples| - 1;
    var before, s := samples[..n], samples[n];
    var runs := Runs(before);
    ClearBefore(samples, n);
    starts := RunsAreRunLength(before);
    assert samples == before + [s];
    if runs != [] && SameFields(runs[|runs| - 1], Given(s)) {
      LastGrew(before, runs, starts, s);
    } else {
      LastBegan(before, runs, starts, s);
      starts := starts + [n];
    }
  }

  lemma NoRuns()
    ensures RunLength([], [], [])
  {
  }

  lemma LastGrew(samples: seq<Sample>, runs: seq<Value>, starts: seq<nat>, s: Sample)
    requires RunLength(samples, runs, starts) && runs != [] && SameFields(runs[|runs| - 1], Given(s))
    ensures RunLength(samples + [s], RecordIn(runs, s.timestamp, Given(s)), starts)
  {
    hide IsRun;
    var m := |runs| - 1;
    var longer := Extended(runs[m], s.timestamp, Given(s));
    assert IsRun(samples, runs[m], starts[m], |samples|);
    assert RecordIn(runs, s.timestamp, Given(s)) == runs[m := longer];
    RunGrows(samples, s, runs[m], starts[m]);
    assert SameFields(longer, runs[m]);
    AllButLast(samples, runs, starts, s);
    hide RecordIn, Extended, SameFields;
    StillDiffer(runs, longer);
  }

  lemma StillDiffer(runs: seq<Value>, longer: Value)
    requires runs != [] && NeighboursDiffer(runs) && SameFields(longer, runs[|runs| - 1])
    ensures NeighboursDiffer(runs[|runs| - 1 := longer])
  {
  }

  lemma AllButLast(samples: seq<Sample>, runs: seq<Value>, starts: seq<nat>, s: Sample)
    requires |starts| == |runs| && AllRuns(samples, runs, starts)
    ensures forall i :: 0 <= i < |runs| - 1 ==> IsRun(samples + [s], runs[i], starts[i], StartAfter(|samples| + 1, starts, i))
  {
    hide IsRun;
    forall i | 0 <= i < |runs| - 1 ensures IsRun(samples + [s], runs[i], starts[i], StartAfter(|samples| + 1, starts, i)) {
      RunStays(samples, s, runs[i], starts[i], StartAfter(|samples|, starts, i));
    }
  }

  lemma LastBegan(samples: seq<Sample>, runs: seq<Value>, starts: seq<nat>, s: Sample)
    requires RunLength(samples, runs, starts) && (runs != [] ==> !SameFields(runs[|runs| - 1], Given(s))) && Clear(samples + [s])
    ensures RunLength(samples + [s], RecordIn(runs, s.timestamp, Given(s)), starts + [|samples|])
  {
    hide IsRun, AllRuns, Cuts, NeighboursDiffer, SameFields, Clear;
    LastTakesNot(samples, runs, starts, s);
    assert RecordIn(runs, s.timestamp, Given(s)) == runs + [Given(s)];
    CutOff(|samples|, starts);
    RunsAndOne(samples, runs, starts, s);
    OneMoreDiffers(runs, s);
  }

  lemma CutOff(n: nat, starts: seq<nat>)
    requires Cuts(n, starts)
    ensures Cuts(n + 1, starts + [n])
  {
  }

  lemma OneMoreDiffers(runs: seq<Value>, s: Sample)
    requires NeighboursDiffer(runs) && (runs != [] ==> !SameFields(runs[|runs| - 1], Given(s)))
    ensures NeighboursDiffer(runs + [Given(s)])
  {
    hide SameFields;
  }

  /** A run of one datum takes a sample of the same datum, or one that blurs, and no other. */
  lemma PureTakes(run: Value, a: Sample, s: Sample)
    requires SameFields(run, Given(a))
    ensures SameNumber(run, Given(s)) || SameText(run, Given(s)) <==> SameFields(run, Given(s)) || Blurs([a, s], 1)
  {
  }

  lemma LastTakesNot(samples: seq<Sample>, runs: seq<Value>, starts: seq<nat>, s: Sample)
    requires |starts| == |runs| && Cuts(|samples|, starts) && AllRuns(samples, runs, starts)
    requires (runs != [] ==> !SameFields(runs[|runs| - 1], Given(s))) && Clear(samples + [s])
    ensures !Grows(runs, Given(s))
  {
    if runs != [] {
      var m, n := |runs| - 1, |samples| - 1;
      assert IsRun(samples, runs[m], starts[m], |samples|);
      hide SameFields, SameNumber, SameText;
      assert !Blurs(samples + [s], n + 1);
      assert Blurs([samples[n], s], 1) == Blurs(samples + [s], n + 1);
      PureTakes(runs[m], samples[n], s);
    }
  }

  lemma RunsAndOne(samples: seq<Sample>, runs: seq<Value>, starts: seq<nat>, s: Sample)
    requires |starts| == |runs| && AllRuns(samples, runs, starts)
    ensures AllRuns(samples + [s], runs + [Given(s)], starts + [|samples|])
  {
    hide IsRun;
    var starts' := starts + [|samples|];
    RunBegins(samples, s);
    forall i | 0 <= i < |runs| ensures IsRun(samples + [s], runs[i], starts'[i], StartAfter(|samples| + 1, starts', i)) {
      RunStays(samples, s, runs[i], starts[i], StartAfter(|samples|, starts, i));
    }
  }

  // ---------- and only then ----------

  /** How many runs a run-length encoding has. */
  function Changes(samples: seq<Sample>): nat {
    if samples == [] then 0 else
      var n := |samples| - 1;
      Changes(samples[..n]) + if n == 0 || samples[n].datum != samples[n - 1].datum then 1 else 0
  }

  ghost predicate PiecesAgree(samples: seq<Sample>, starts: seq<nat>)
    requires Cuts(|samples|, starts)
  {
    forall i, j :: 0 <= i < |starts| && starts[i] <= j < StartAfter(|samples|, starts, i) ==> samples[j].datum == samples[starts[i]].datum
  }

  ghost predicate PiecesDiffer(samples: seq<Sample>, starts: seq<nat>)
    requires Cuts(|samples|, starts)
  {
    forall i :: 0 <= i < |starts| - 1 ==> samples[starts[i]].datum != samples[starts[i + 1]].datum
  }

  /** The starts cut the samples into pieces of one datum each, different from the next one's. */
  ghost predicate Pieces(samples: seq<Sample>, starts: seq<nat>) {
    Cuts(|samples|, starts) && PiecesAgree(samples, starts) && PiecesDiffer(samples, starts)
  }

  lemma SameDatum(a: Sample, b: Sample)
    ensures SameFields(Given(a), Given(b)) <==> a.datum == b.datum
  {
  }

  lemma RunLengthIsPieces(samples: seq<Sample>, runs: seq<Value>, starts: seq<nat>)
    requires RunLength(samples, runs, starts)
    ensures Pieces(samples, starts)
  {
    hide Given;
    forall i | 0 <= i < |starts| ensures starts[i] < |samples| && SameFields(runs[i], Given(samples[starts[i]])) {
      assert IsRun(samples, runs[i], starts[i], StartAfter(|samples|, starts, i));
    }
    forall i, j | 0 <= i < |starts| && starts[i] <= j < StartAfter(|samples|, starts, i) ensures samples[j].datum == samples[starts[i]].datum {
      assert IsRun(samples, runs[i], starts[i], StartAfter(|samples|, starts, i));
      SameDatum(samples[j], samples[starts[i]]);
    }
    forall i | 0 <= i < |starts| - 1 ensures samples[starts[i]].datum != samples[starts[i + 1]].datum {
      SameDatum(samples[starts[i]], samples[starts[i + 1]]);
    }
  }

  lemma {:induction false} PiecesAreChanges(samples: seq<Sample>, starts: seq<nat>)
    requires Pieces(samples, starts)
    ensures |starts| == Changes(samples)
    decreases |samples|
  {
    PiecesNotEmpty(samples, starts);
    ChangesStep(samples);
    hide Pieces, Changes;
    if samples != [] {
      var n, m := |samples| - 1, |starts| - 1;
      if starts[m] == n {
        WithoutLastPiece(samples, starts);
        PiecesAreChanges(samples[..n], starts[..m]);
      } else {
        ShorterLastPiece(samples, starts);
        PiecesAreChanges(samples[..n], starts);
      }
    }
  }

  lemma ChangesStep(samples: seq<Sample>)
    ensures samples == [] ==> Changes(samples) == 0
    ensures samples != [] ==> var n := |samples| - 1;
      Changes(samples) == Changes(samples[..n]) + if n == 0 || samples[n].datum != samples[n - 1].datum then 1 else 0
  {
  }

  lemma PiecesNotEmpty(samples: seq<Sample>, starts: seq<nat>)
    requires Pieces(samples, starts)
    ensures samples == [] <==> starts == []
  {
  }

  lemma WithoutLastStart(total: nat, starts: seq<nat>)
    requires Cuts(total, starts) && total > 0 && starts[|starts| - 1] == total - 1
    ensures var less := starts[..|starts| - 1];
      Cuts(total - 1, less) && forall i :: 0 <= i < |less| ==> StartAfter(total, starts, i) == StartAfter(total - 1, less, i) < total
  {
    var m := |starts| - 1;
    var less := starts[..m];
    forall i | 0 <= i < m ensures StartAfter(total, starts, i) == StartAfter(total - 1, less, i) < total {
      StartsGrow(total, starts, i + 1, m);
    }
    forall i | 0 <= i < m ensures less[i] < StartAfter(total - 1, less, i) {
      assert starts[i] < StartAfter(total, starts, i);
    }
  }

  lemma WithoutLastPiece(samples: seq<Sample>, starts: seq<nat>)
    requires Pieces(samples, starts) && samples != [] && starts[|starts| - 1] == |samples| - 1
    ensures var n, m := |samples| - 1, |starts| - 1;
      Pieces(samples[..n], starts[..m]) && (n == 0 || samples[n].datum != samples[n - 1].datum)
  {
    WithoutLastStart(|samples|, starts);
    StillAgree(samples, starts);
    StillDifferent(samples, starts);
    LastDiffers(samples, starts);
    hide Cuts, PiecesAgree, PiecesDiffer, StartAfter;
  }

  lemma StillAgree(samples: seq<Sample>, starts: seq<nat>)
    requires samples != [] && starts != [] && Cuts(|samples|, starts) && PiecesAgree(samples, starts)
    requires Cuts(|samples| - 1, starts[..|starts| - 1])
    requires var less := starts[..|starts| - 1];
      forall i :: 0 <= i < |less| ==> StartAfter(|samples|, starts, i) == StartAfter(|samples| - 1, less, i) < |samples|
    ensures PiecesAgree(samples[..|samples| - 1], starts[..|starts| - 1])
  {
    var n, less := |samples| - 1, starts[..|starts| - 1];
    hide Cuts, StartAfter;
    forall i, j | 0 <= i < |less| && less[i] <= j < StartAfter(n, less, i) ensures samples[j].datum == samples[less[i]].datum {
      assert starts[i] <= j < StartAfter(|samples|, starts, i);
    }
  }

  lemma StillDifferent(samples: seq<Sample>, starts: seq<nat>)
    requires samples != [] && starts != [] && Cuts(|samples|, starts) && PiecesDiffer(samples, starts)
    requires Cuts(|samples| - 1, starts[..|starts| - 1])
    ensures PiecesDiffer(samples[..|samples| - 1], starts[..|starts| - 1])
  {
    var n, less := |samples| - 1, starts[..|starts| - 1];
    forall i | 0 <= i < |less| - 1 ensures samples[..n][less[i]].datum != samples[..n][less[i + 1]].datum {
      assert less[i] < StartAfter(n, less, i) && less[i + 1] < StartAfter(n, less, i + 1);
      assert samples[starts[i]].datum != samples[starts[i + 1]].datum;
    }
  }

  lemma LastDiffers(samples: seq<Sample>, starts: seq<nat>)
    requires Pieces(samples, starts) && samples != [] && starts[|starts| - 1] == |samples| - 1
    ensures var n := |samples| - 1; n == 0 || samples[n].datum != samples[n - 1].datum
  {
    var n, m := |samples| - 1, |starts| - 1;
    assert m > 0 ==> starts[m - 1] < StartAfter(|samples|, starts, m - 1) == n;
    assert m > 0 ==> samples[n - 1].datum == samples[starts[m - 1]].datum;
    assert m > 0 ==> samples[starts[m - 1]].datum != samples[starts[m]].datum;
  }

  lemma {:induction false} StartsGrow(n: nat, starts: seq<nat>, i: nat, j: nat)
    requires Cuts(n, starts) && i <= j < |starts|
    ensures starts[i] <= starts[j]
    decreases j - i
  {
    if i < j {
      StartsGrow(n, starts, i, j - 1);
      assert starts[j - 1] < StartAfter(n, starts, j - 1);
    }
  }

  lemma ShorterLast(total: nat, starts: seq<nat>)
    requires Cuts(total, starts) && total > 0 && starts[|starts| - 1] != total - 1
    ensures starts[|starts| - 1] < total - 1 && Cuts(total - 1, starts)
    ensures forall i :: 0 <= i < |starts| ==> StartAfter(total - 1, starts, i) <= StartAfter(total, starts, i)
  {
    var m := |starts| - 1;
    assert starts[m] < StartAfter(total, starts, m);
    forall i | 0 <= i < |starts| ensures starts[i] < StartAfter(total - 1, starts, i) <= total - 1 {
      StartsGrow(total, starts, if i < m then i + 1 else m, m);
      assert starts[i] < StartAfter(total, starts, i);
    }
  }

  lemma ShorterAgree(samples: seq<Sample>, starts: seq<nat>, n: nat)
    requires n <= |samples| && Cuts(|samples|, starts) && PiecesAgree(samples, starts) && Cuts(n, starts)
    requires forall i :: 0 <= i < |starts| ==> StartAfter(n, starts, i) <= StartAfter(|samples|, starts, i)
    ensures PiecesAgree(samples[..n], starts)
  {
    forall i, j | 0 <= i < |starts| && starts[i] <= j < StartAfter(n, starts, i) ensures samples[..n][j].datum == samples[..n][starts[i]].datum {
      assert samples[j].datum == samples[starts[i]].datum;
    }
  }

  lemma ShorterDiffer(samples: seq<Sample>, starts: seq<nat>, n: nat)
    requires n <= |samples| && Cuts(|samples|, starts) && PiecesDiffer(samples, starts) && Cuts(n, starts)
    ensures PiecesDiffer(samples[..n], starts)
  {
    forall i | 0 <= i < |starts| - 1 ensures samples[..n][starts[i]].datum != samples[..n][starts[i + 1]].datum {
      assert starts[i] < StartAfter(n, starts, i) && starts[i + 1] < StartAfter(n, starts, i + 1);
      assert samples[starts[i]].datum != samples[starts[i + 1]].datum;
    }
  }

  lemma ShorterLastPiece(samples: seq<Sample>, starts: seq<nat>)
    requires Pieces(samples, starts) && samples != [] && starts[|starts| - 1] != |samples| - 1
    ensures var n := |samples| - 1; n > 0 && Pieces(samples[..n], starts) && samples[n].datum == samples[n - 1].datum
  {
    var n, m := |samples| - 1, |starts| - 1;
    ShorterLast(|samples|, starts);
    assert samples[n].datum == samples[starts[m]].datum && samples[n - 1].datum == samples[starts[m]].datum;
    hide Cuts, StartAfter, PiecesAgree, PiecesDiffer;
    ShorterAgree(samples, starts, n);
    ShorterDiffer(samples, starts, n);
  }

  /** The last run holds the last sample's datum and ends at its time. */
  lemma {:induction false} LastRun(samples: seq<Sample>)
    requires samples != []
    ensures var run := Runs(samples)[|Runs(samples)| - 1];
      Holds(run, samples[|samples| - 1].datum) && EndOf(run) == samples[|samples| - 1].timestamp
  {
  }

  /** There are never more runs than that, and fewer once a sample has blurred. */
  lemma {:induction false} FewRuns(samples: seq<Sample>)
    ensures |Runs(samples)| <= Changes(samples) && (!Clear(samples) ==> |Runs(samples)| < Changes(samples))
  {
    if samples != [] {
      var n := |samples| - 1;
      var before, s := samples[..n], samples[n];
      FewRuns(before);
      if n > 0 {
        LastRun(before);
        if s.datum != samples[n - 1].datum && !Clear(samples) && Clear(before) {
          assert before + [s] == samples;
          BlurredRun(before, s);
        }
        HoldsGrows(Runs(before)[|Runs(before)| - 1], s);
      }
      if !Clear(samples) && s.datum == samples[n - 1].datum {
        assert !Clear(before) by { StillBlurred(samples); }
      }
    }
  }

  lemma HoldsGrows(run: Value, s: Sample)
    ensures Holds(run, s.datum) ==> SameNumber(run, Given(s)) || SameText(run, Given(s))
  {
  }

  lemma StillBlurred(samples: seq<Sample>)
    requires |samples| >= 2 && !Clear(samples) && samples[|samples| - 1].datum == samples[|samples| - 2].datum
    ensures !Clear(samples[..|samples| - 1])
  {
    var j :| 0 < j < |samples| && Blurs(samples, j);
    assert Blurs(samples[..|samples| - 1], j);
  }

  lemma NotBlurred(before: seq<Sample>, s: Sample, j: nat)
    requires Clear(before) && 0 < j < |before|
    ensures !Blurs(before + [s], j)
  {
    assert !Blurs(before, j);
  }

  lemma BlurredRun(before: seq<Sample>, s: Sample)
    requires before != [] && Clear(before) && !Clear(before + [s])
    ensures Grows(Runs(before), Given(s))
  {
    var samples, n := before + [s], |before|;
    var j :| 0 < j < |samples| && Blurs(samples, j);
    if j < n {
      NotBlurred(before, s, j);
    }
    assert j == n;
    var starts := RunsAreRunLength(before);
    var runs := Runs(before);
    var m := |runs| - 1;
    assert IsRun(before, runs[m], starts[m], |before|);
    hide Runs, SameFields, SameNumber, SameText;
    assert Blurs([before[n - 1], s], 1);
    PureTakes(runs[m], before[n - 1], s);
  }

  /** The exact condition: the runs are a run-length encoding of numbers and texts if and only if no 0 follows a text directly
      and no empty text a number. */
  lemma RunLengthIff(samples: seq<Sample>)
    ensures (exists starts :: RunLength(samples, Runs(samples), starts)) <==> Clear(samples)
  {
    hide RunLength, Runs, Clear, Pieces;
    if Clear(samples) {
      var starts := RunsAreRunLength(samples);
    } else {
      FewRuns(samples);
      forall starts ensures !RunLength(samples, Runs(samples), starts) {
        TooFewRuns(samples, starts);
      }
    }
  }

  lemma TooFewRuns(samples: seq<Sample>, starts: seq<nat>)
    requires |Runs(samples)| < Changes(samples)
    ensures !RunLength(samples, Runs(samples), starts)
  {
    hide RunLength, Runs, Pieces, Changes;
    if RunLength(samples, Runs(samples), starts) {
      OneStartEach(samples, Runs(samples), starts);
      RunLengthIsPieces(samples, Runs(samples), starts);
      PiecesAreChanges(samples, starts);
    }
  }

  lemma OneStartEach(samples: seq<Sample>, runs: seq<Value>, starts: seq<nat>)
    requires RunLength(samples, runs, starts)
    ensures |starts| == |runs|
  {
  }

  /** The time a run ends at: its own, when it has not grown. */
  function EndOf(run: Value): nat {
    if run.end == None then run.timestamp else run.end.value
  }

  ghost predicate InRun(run: Value, s: Sample) {
    Holds(run, s.datum) && run.timestamp <= s.timestamp <= EndOf(run)
  }

  /** Every sample recorded in time order, number or text, lies in a run that has its datum, blurred or not. */
  lemma {:induction false} SamplesCovered(samples: seq<Sample>, j: nat)
    requires j < |samples|
    requires forall i, k :: 0 <= i < k < |samples| ==> samples[i].timestamp <= samples[k].timestamp
    ensures exists r :: r in Runs(samples) && InRun(r, samples[j])
    decreases |samples|
  {
    var n := |samples| - 1;
    var before, s := samples[..n], samples[n];
    if j == n {
      LastRun(samples);
      LastRunStarts(samples);
      var r := Runs(samples)[|Runs(samples)| - 1];
      assert r in Runs(samples) && InRun(r, s);
    } else {
      SamplesCovered(before, j);
      var r :| r in Runs(before) && InRun(r, samples[j]);
      LastRun(before);
      StillCovered(Runs(before), r, s, samples[j]);
    }
  }

  lemma {:induction false} LastRunStarts(samples: seq<Sample>)
    requires samples != [] && forall i, k :: 0 <= i < k < |samples| ==> samples[i].timestamp <= samples[k].timestamp
    ensures Runs(samples)[|Runs(samples)| - 1].timestamp <= samples[|samples| - 1].timestamp
  {
    var n := |samples| - 1;
    if n > 0 {
      LastRunStarts(samples[..n]);
    }
  }

  /** Recording a sample that is no earlier than the last run's end keeps what is covered covered. */
  lemma StillCovered(runs: seq<Value>, r: Value, s: Sample, covered: Sample)
    requires r in runs && InRun(r, covered) && EndOf(runs[|runs| - 1]) <= s.timestamp
    ensures exists q :: q in RecordIn(runs, s.timestamp, Given(s)) && InRun(q, covered)
  {
    var after := RecordIn(runs, s.timestamp, Given(s));
    var i :| 0 <= i < |runs| && runs[i] == r;
    assert InRun(after[i], covered);
    assert after[i] in after;
  }
}
