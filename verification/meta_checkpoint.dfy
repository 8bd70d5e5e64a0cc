/**
 The training-history bookkeeping of the meta checkpoint callback.

 The callback keeps a metadata record: the list of epoch numbers seen so far,
 one history list per logged metric, and optionally the schedule's
 configuration and the invocation arguments. At the start of
 training it remembers how many epochs are already recorded, so that a
 second training run with the same callback continues the numbering; at the
 end of every epoch it appends the epoch number and every logged value, then
 formats the output path from the epoch and the logs. Writing the record to
 disk is not part of this model.
 */
module MetaCheckpoint {
  import opened PyDict

  datatype Option<T> = None | Some(value: T)

  /** A number stored in a history list: an epoch number or a logged metric value. */
  datatype Scalar = Int(i: int) | Float(x: real)

  /**
   One value of the metadata record: a list that can be appended to, or a
   dictionary (the schedule configuration, the invocation arguments), which
   cannot.
   */
  datatype Entry = List(items: seq<Scalar>) | Dict(fields: map<string, string>)

  type Meta = map<string, Entry>

  /** The callback's state: its output path template, the record, and the epoch offset once set. */
  datatype Checkpoint = Checkpoint(filepath: string, meta: Meta, epochOffset: Option<int>)

  datatype Error =
    | NoEpochOffset          // epoch end before train begin: the offset attribute does not exist yet
    | NotAList(key: string)  // a logged key names a dictionary entry, which has no append
    | EpochLogged            // a logged key `epoch` is passed to the path format a second time

  datatype Result<T> = Ok(value: T) | Err(error: Error)

  const EpochKey := "epoch"
  const ScheduleKey := "schedule"
  const TrainingArgsKey := "training_args"

  /** The record always holds the epoch list. */
  predicate Valid(c: Checkpoint) {
    EpochKey in c.meta && c.meta[EpochKey].List?
  }

  function Epochs(c: Checkpoint): seq<Scalar>
    requires Valid(c)
  {
    c.meta[EpochKey].items
  }

  /** The key is present but holds something other than a list. */
  predicate NotList(meta: Meta, k: string) {
    k in meta && !meta[k].List?
  }

  /** Every logged key can be appended to: it is absent or holds a list. */
  predicate Appendable(meta: Meta, logs: seq<(string, Scalar)>) {
    forall i :: 0 <= i < |logs| ==> !NotList(meta, logs[i].0)
  }

  /** The history recorded so far under an appendable key (empty if the key is absent). */
  function History(meta: Meta, k: string): seq<Scalar>
    requires !NotList(meta, k)
  {
    if k in meta then meta[k].items else []
  }

  /**
   Construction. The truthiness tests of the source decide what is stored: a
   schedule object is always truthy, an argument dictionary only when it is
   not empty. `schedule` is the configuration the schedule object reports.
   */
  function Init(filepath: string, schedule: Option<map<string, string>>,
                trainingArgs: Option<map<string, string>>): (c: Checkpoint)
    ensures Valid(c) && Epochs(c) == []
    ensures ScheduleKey in c.meta <==> schedule.Some?
    ensures schedule.Some? ==> c.meta[ScheduleKey] == Dict(schedule.value)
    ensures TrainingArgsKey in c.meta <==> trainingArgs.Some? && |trainingArgs.value| > 0
    ensures TrainingArgsKey in c.meta ==> c.meta[TrainingArgsKey] == Dict(trainingArgs.value)
    ensures c.meta.Keys <= {EpochKey, ScheduleKey, TrainingArgsKey}
    ensures c.filepath == filepath && c.epochOffset.None?
  {
    var m0 := map[EpochKey := List([])];
    var m1 := if schedule.Some? then m0[ScheduleKey := Dict(schedule.value)] else m0;
    var m2 := if trainingArgs.Some? && |trainingArgs.value| > 0
              then m1[TrainingArgsKey := Dict(trainingArgs.value)] else m1;
    Checkpoint(filepath, m2, None)
  }

  /** Start of training: remember how many epochs are already recorded. */
  function OnTrainBegin(c: Checkpoint): (r: Checkpoint)
    requires Valid(c)
    ensures Valid(r) && r.meta == c.meta && r.filepath == c.filepath
    ensures r.epochOffset == Some(|Epochs(c)|)
  {
    c.(epochOffset := Some(|c.meta[EpochKey].items|))
  }

  /** `setdefault(k, []).append(v)`: fails when the key holds a dictionary. */
  function SetDefaultAppend(meta: Meta, k: string, v: Scalar): (r: Result<Meta>)
    ensures r.Ok? <==> !NotList(meta, k)
    ensures r.Err? ==> r.error == NotAList(k)
    ensures r.Ok? ==> r.value.Keys == meta.Keys + {k}
    ensures r.Ok? ==> r.value[k] == List(History(meta, k) + [v])
    ensures r.Ok? ==> forall k' :: k' in meta && k' != k ==> r.value[k'] == meta[k']
  {
    if k !in meta then
      assert [] + [v] == [v];
      Ok(meta[k := List([v])])
    else if meta[k].List? then Ok(meta[k := List(meta[k].items + [v])])
    else Err(NotAList(k))
  }

  /** Appends every logged value to its history, visiting the logs in iteration order. */
  function AppendLogs(meta: Meta, logs: seq<(string, Scalar)>): (r: Result<Meta>)
    ensures r.Ok? <==> Appendable(meta, logs)
    ensures r.Ok? ==> r.value.Keys == meta.Keys + KeySet(logs)
    ensures r.Ok? ==> forall k :: NotList(r.value, k) <==> NotList(meta, k)
    decreases |logs|
  {
    if |logs| == 0 then Ok(meta)
    else
      match SetDefaultAppend(meta, logs[0].0, logs[0].1)
      case Err(e) => Err(e)
      case Ok(m) =>
        KeySetCons(logs);
        assert Appendable(meta, logs) <==> Appendable(m, logs[1..]) by {
          if Appendable(m, logs[1..]) {
            forall i | 0 <= i < |logs| ensures !NotList(meta, logs[i].0) {
              if i > 0 { assert logs[1..][i - 1] == logs[i]; }
            }
          }
        }
        AppendLogs(m, logs[1..])
  }

  /** Appending leaves every key that is not logged exactly as it was. */
  lemma {:induction false} AppendLogsFrame(meta: Meta, logs: seq<(string, Scalar)>)
    requires AppendLogs(meta, logs).Ok?
    ensures forall k :: k in meta && k !in KeySet(logs) ==> AppendLogs(meta, logs).value[k] == meta[k]
    decreases |logs|
  {
    if |logs| > 0 {
      var m := SetDefaultAppend(meta, logs[0].0, logs[0].1).value;
      var rest := logs[1..];
      assert AppendLogs(meta, logs) == AppendLogs(m, rest);
      AppendLogsFrame(m, rest);
      KeySetCons(logs);
    }
  }

  /** A failure names the first logged key, in iteration order, that holds a dictionary. */
  lemma {:induction false} AppendLogsFirstError(meta: Meta, logs: seq<(string, Scalar)>)
    requires AppendLogs(meta, logs).Err?
    ensures exists i :: 0 <= i < |logs| && AppendLogs(meta, logs).error == NotAList(logs[i].0)
                        && NotList(meta, logs[i].0) && Appendable(meta, logs[..i])
    decreases |logs|
  {
    var r := AppendLogs(meta, logs);
    match SetDefaultAppend(meta, logs[0].0, logs[0].1)
    case Err(e) =>
      assert r.error == NotAList(logs[0].0) && Appendable(meta, logs[..0]);
    case Ok(m) =>
      var rest := logs[1..];
      assert r == AppendLogs(m, rest);
      AppendLogsFirstError(m, rest);
      var j :| 0 <= j < |rest| && r.error == NotAList(rest[j].0)
               && NotList(m, rest[j].0) && Appendable(m, rest[..j]);
      assert rest[j] == logs[j + 1];
      var prefix := logs[..j + 1];
      forall i | 0 <= i < |prefix| ensures !NotList(meta, prefix[i].0) {
        if i > 0 { assert prefix[i] == rest[..j][i - 1]; }
      }
  }

  /** The record once the offset epoch number is appended to the epoch list. */
  function WithEpoch(c: Checkpoint, epoch: int): (m: Meta)
    requires Valid(c) && c.epochOffset.Some?
    ensures m.Keys == c.meta.Keys
    ensures forall k :: NotList(m, k) <==> NotList(c.meta, k)
    ensures m[EpochKey] == List(Epochs(c) + [Int(epoch + c.epochOffset.value)])
    ensures forall k :: k in c.meta && k != EpochKey ==> m[k] == c.meta[k]
  {
    c.meta[EpochKey := List(Epochs(c) + [Int(epoch + c.epochOffset.value)])]
  }

  /**
   End of an epoch: append the offset epoch number to the epoch list, then
   every logged value to its history, then format the output path with the
   epoch and the logs as keyword arguments. Fails when training has not begun,
   when a logged key names a dictionary entry, and when the logs carry an
   `epoch` entry, which the path format would receive twice.
   */
  function OnEpochEnd(c: Checkpoint, epoch: int, logs: seq<(string, Scalar)>): (r: Result<Checkpoint>)
    requires Valid(c)
    ensures r.Ok? <==> c.epochOffset.Some? && Clean(c.meta, logs)
    ensures c.epochOffset.None? ==> r == Err(NoEpochOffset)
    ensures r.Ok? ==> Valid(r.value) && r.value.filepath == c.filepath && r.value.epochOffset == c.epochOffset
    ensures r.Ok? ==> forall k :: NotList(r.value.meta, k) <==> NotList(c.meta, k)
  {
    match c.epochOffset
    case None => Err(NoEpochOffset)
    case Some(offset) =>
      var m := WithEpoch(c, epoch);
      match AppendLogs(m, logs)
      case Err(e) => Err(e)
      case Ok(meta) =>
        if EpochKey in KeySet(logs) then Err(EpochLogged)
        else
          assert !NotList(meta, EpochKey);
          Ok(Checkpoint(c.filepath, meta, c.epochOffset))
  }

  /**
   The epoch list is append-only: a successful epoch end keeps every recorded
   epoch number and adds exactly one, the offset epoch number, after them.
   */
  lemma EpochEndAppendOnly(c: Checkpoint, epoch: int, logs: seq<(string, Scalar)>)
    requires Valid(c) && OnEpochEnd(c, epoch, logs).Ok?
    ensures Epochs(OnEpochEnd(c, epoch, logs).value) == Epochs(c) + [Int(epoch + c.epochOffset.value)]
  {
    assert Clean(c.meta, logs);
    EpochEndEpochs(c, epoch, logs);
  }

  /**
   Once the logs can be appended, the epoch end records them and then fails
   only on an `epoch` entry; otherwise it keeps the path and offset and
   replaces the record by the appended one.
   */
  lemma EpochEndOk(c: Checkpoint, epoch: int, logs: seq<(string, Scalar)>)
    requires Valid(c) && c.epochOffset.Some? && Appendable(c.meta, logs)
    ensures AppendLogs(WithEpoch(c, epoch), logs).Ok?
    ensures EpochKey in KeySet(logs) ==> OnEpochEnd(c, epoch, logs) == Err(EpochLogged)
    ensures EpochKey !in KeySet(logs) ==>
              OnEpochEnd(c, epoch, logs)
              == Ok(Checkpoint(c.filepath, AppendLogs(WithEpoch(c, epoch), logs).value, c.epochOffset))
  {
  }

  /**
   Once training has begun, a failed epoch end reports the first logged key,
   in iteration order, whose entry is a dictionary; when there is none, the
   failure is the `epoch` entry among the logs.
   */
  lemma EpochEndError(c: Checkpoint, epoch: int, logs: seq<(string, Scalar)>)
    requires Valid(c) && c.epochOffset.Some? && OnEpochEnd(c, epoch, logs).Err?
    ensures !Appendable(c.meta, logs) ==>
              exists i :: 0 <= i < |logs| && OnEpochEnd(c, epoch, logs).error == NotAList(logs[i].0)
                          && NotList(c.meta, logs[i].0) && Appendable(c.meta, logs[..i])
    ensures Appendable(c.meta, logs) ==> OnEpochEnd(c, epoch, logs).error == EpochLogged && EpochKey in KeySet(logs)
  {
    var m := WithEpoch(c, epoch);
    if !Appendable(c.meta, logs) {
      assert AppendLogs(m, logs).Err? && OnEpochEnd(c, epoch, logs).error == AppendLogs(m, logs).error;
      AppendLogsFirstError(m, logs);
      var i :| 0 <= i < |logs| && AppendLogs(m, logs).error == NotAList(logs[i].0)
               && NotList(m, logs[i].0) && Appendable(m, logs[..i]);
      assert Appendable(c.meta, logs[..i]);
    }
  }

  /** The epoch list only ever grows at its end while the logs are appended. */
  lemma {:induction false} EpochListExtends(meta: Meta, logs: seq<(string, Scalar)>, epochs: seq<Scalar>)
    requires EpochKey in meta && meta[EpochKey] == List(epochs)
    requires AppendLogs(meta, logs).Ok?
    ensures AppendLogs(meta, logs).value[EpochKey].List?
    ensures epochs <= AppendLogs(meta, logs).value[EpochKey].items
    decreases |logs|
  {
    if |logs| > 0 {
      var m := SetDefaultAppend(meta, logs[0].0, logs[0].1).value;
      var e := History(m, EpochKey);
      assert epochs <= e;
      EpochListExtends(m, logs[1..], e);
    }
  }

  /** With distinct logged keys, every logged value lands at the end of its own history. */
  lemma {:induction false} AppendLogsHistories(meta: Meta, logs: seq<(string, Scalar)>)
    requires DistinctKeys(logs)
    requires AppendLogs(meta, logs).Ok?
    ensures forall i :: 0 <= i < |logs| ==>
              AppendLogs(meta, logs).value[logs[i].0] == List(History(meta, logs[i].0) + [logs[i].1])
    decreases |logs|
  {
    if |logs| > 0 {
      var m := SetDefaultAppend(meta, logs[0].0, logs[0].1).value;
      var rest := logs[1..];
      var r := AppendLogs(meta, logs).value;
      assert r == AppendLogs(m, rest).value;
      AppendLogsHistories(m, rest);
      AppendLogsFrame(m, rest);
      forall i | 0 <= i < |logs|
        ensures r[logs[i].0] == List(History(meta, logs[i].0) + [logs[i].1])
      {
        if i == 0 {
          assert logs[0].0 !in KeySet(rest);
        } else {
          assert rest[i - 1] == logs[i];
          assert History(m, logs[i].0) == History(meta, logs[i].0);
        }
      }
    }
  }

  /**
   Logs an epoch end accepts: every key can be appended to, and there is no
   `epoch` entry to clash with the path format's own `epoch` argument.
   */
  predicate Clean(meta: Meta, logs: seq<(string, Scalar)>) {
    Appendable(meta, logs) && EpochKey !in KeySet(logs)
  }

  /** Every epoch's logs in a batch are clean. */
  predicate BatchClean(meta: Meta, batch: seq<(int, seq<(string, Scalar)>)>) {
    forall j :: 0 <= j < |batch| ==> Clean(meta, batch[j].1)
  }

  /**
   Whether logs can be recorded depends only on which keys hold non-lists, so
   the rest of a clean batch stays clean once its first epoch is recorded.
   */
  lemma BatchCleanTail(meta: Meta, meta': Meta, batch: seq<(int, seq<(string, Scalar)>)>)
    requires forall k :: NotList(meta', k) <==> NotList(meta, k)
    requires |batch| > 0 && BatchClean(meta, batch)
    ensures BatchClean(meta', batch[1..])
  {
    var rest := batch[1..];
    forall j | 0 <= j < |rest| ensures Clean(meta', rest[j].1) {
      assert rest[j] == batch[j + 1];
    }
  }

  /** Without an epoch entry in the logs, the epoch list grows by exactly the offset epoch number. */
  lemma EpochEndEpochs(c: Checkpoint, epoch: int, logs: seq<(string, Scalar)>)
    requires Valid(c) && c.epochOffset.Some? && Clean(c.meta, logs)
    ensures OnEpochEnd(c, epoch, logs).Ok?
    ensures Epochs(OnEpochEnd(c, epoch, logs).value) == Epochs(c) + [Int(epoch + c.epochOffset.value)]
  {
    var m := WithEpoch(c, epoch);
    EpochEndOk(c, epoch, logs);
    AppendLogsFrame(m, logs);
  }

  /**
   An epoch entry among the logs makes the epoch end fail once the record is
   updated: the path format receives `epoch` twice. The record it leaves
   behind has every logged value appended to its history, the logged epoch
   included, so the epoch list has grown by two, the offset epoch number and
   the logged value.
   */
  lemma EpochEndEpochKeyLogged(c: Checkpoint, epoch: int, logs: seq<(string, Scalar)>, i: int)
    requires Valid(c) && c.epochOffset.Some? && Appendable(c.meta, logs) && DistinctKeys(logs)
    requires 0 <= i < |logs| && logs[i].0 == EpochKey
    ensures OnEpochEnd(c, epoch, logs) == Err(EpochLogged)
    ensures AppendLogs(WithEpoch(c, epoch), logs).Ok?
    ensures AppendLogs(WithEpoch(c, epoch), logs).value[EpochKey]
            == List(Epochs(c) + [Int(epoch + c.epochOffset.value), logs[i].1])
    ensures forall j :: 0 <= j < |logs| && j != i ==>
              AppendLogs(WithEpoch(c, epoch), logs).value[logs[j].0]
              == List(History(c.meta, logs[j].0) + [logs[j].1])
  {
    assert EpochKey in KeySet(logs);
    EpochEndOk(c, epoch, logs);
    var r := EpochLoggedRecord(c, epoch, logs, i);
  }

  /** The record an epoch end with a logged `epoch` entry leaves behind. */
  lemma EpochLoggedRecord(c: Checkpoint, epoch: int, logs: seq<(string, Scalar)>, i: int) returns (r: Meta)
    requires Valid(c) && c.epochOffset.Some? && Appendable(c.meta, logs) && DistinctKeys(logs)
    requires 0 <= i < |logs| && logs[i].0 == EpochKey
    ensures AppendLogs(WithEpoch(c, epoch), logs) == Ok(r)
    ensures r[EpochKey] == List(Epochs(c) + [Int(epoch + c.epochOffset.value), logs[i].1])
    ensures forall j :: 0 <= j < |logs| && j != i ==> r[logs[j].0] == List(History(c.meta, logs[j].0) + [logs[j].1])
  {
    var x := Int(epoch + c.epochOffset.value);
    var m := WithEpoch(c, epoch);
    assert AppendLogs(m, logs).Ok? by {
      assert Appendable(m, logs);
    }
    r := AppendLogs(m, logs).value;
    AppendLogsHistories(m, logs);
    assert History(m, EpochKey) + [logs[i].1] == Epochs(c) + [x, logs[i].1];
    forall j | 0 <= j < |logs| && j != i
      ensures r[logs[j].0] == List(History(c.meta, logs[j].0) + [logs[j].1])
    {
      assert History(m, logs[j].0) == History(c.meta, logs[j].0);
    }
  }

  /** Each logged key's history grows by exactly its logged value, at the end. */
  lemma EpochEndHistories(c: Checkpoint, epoch: int, logs: seq<(string, Scalar)>)
    requires Valid(c) && c.epochOffset.Some? && Clean(c.meta, logs) && DistinctKeys(logs)
    ensures OnEpochEnd(c, epoch, logs).Ok?
    ensures forall i :: 0 <= i < |logs| ==>
              OnEpochEnd(c, epoch, logs).value.meta[logs[i].0] == List(History(c.meta, logs[i].0) + [logs[i].1])
  {
    var m := WithEpoch(c, epoch);
    EpochEndOk(c, epoch, logs);
    AppendLogsHistories(m, logs);
  }

  /** Keys neither logged nor the epoch list are left exactly as they were; no key disappears. */
  lemma EpochEndFrame(c: Checkpoint, epoch: int, logs: seq<(string, Scalar)>)
    requires Valid(c) && c.epochOffset.Some? && Clean(c.meta, logs)
    ensures OnEpochEnd(c, epoch, logs).Ok?
    ensures OnEpochEnd(c, epoch, logs).value.meta.Keys == c.meta.Keys + KeySet(logs)
    ensures forall k :: k in c.meta && k != EpochKey && k !in KeySet(logs) ==>
              OnEpochEnd(c, epoch, logs).value.meta[k] == c.meta[k]
  {
    var m := WithEpoch(c, epoch);
    EpochEndOk(c, epoch, logs);
    AppendLogsFrame(m, logs);
  }

  /** A sequence of epoch ends, each with its epoch index and logs, stopping at the first failure. */
  function RunEpochs(c: Checkpoint, batch: seq<(int, seq<(string, Scalar)>)>): (r: Result<Checkpoint>)
    requires Valid(c)
    ensures r.Ok? ==> Valid(r.value) && r.value.epochOffset == c.epochOffset && r.value.filepath == c.filepath
    decreases |batch|
  {
    if |batch| == 0 then Ok(c)
    else
      match OnEpochEnd(c, batch[0].0, batch[0].1)
      case Err(e) => Err(e)
      case Ok(c1) =>
        RunEpochs(c1, batch[1..])
  }

  /**
   The epoch list is append-only: a successful run keeps every recorded epoch
   number in place and adds exactly one per epoch end.
   */
  lemma {:induction false} RunEpochsAppendOnly(c: Checkpoint, batch: seq<(int, seq<(string, Scalar)>)>)
    requires Valid(c) && RunEpochs(c, batch).Ok?
    ensures Epochs(c) <= Epochs(RunEpochs(c, batch).value)
    ensures |Epochs(RunEpochs(c, batch).value)| == |Epochs(c)| + |batch|
    decreases |batch|
  {
    if |batch| > 0 {
      var c1 := OnEpochEnd(c, batch[0].0, batch[0].1).value;
      assert RunEpochs(c, batch) == RunEpochs(c1, batch[1..]);
      EpochEndAppendOnly(c, batch[0].0, batch[0].1);
      RunEpochsAppendOnly(c1, batch[1..]);
      assert Epochs(c1)[..|Epochs(c)|] == Epochs(c);
    }
  }

  /** The epoch numbers a run appends: each batch index shifted by the offset. */
  function Numbering(batch: seq<(int, seq<(string, Scalar)>)>, offset: int): (r: seq<Scalar>)
    ensures |r| == |batch|
    ensures forall j :: 0 <= j < |batch| ==> r[j] == Int(batch[j].0 + offset)
  {
    seq(|batch|, j requires 0 <= j < |batch| => Int(batch[j].0 + offset))
  }

  lemma NumberingCons(batch: seq<(int, seq<(string, Scalar)>)>, offset: int)
    requires |batch| > 0
    ensures Numbering(batch, offset) == [Int(batch[0].0 + offset)] + Numbering(batch[1..], offset)
  {
    var rest := batch[1..];
    assert forall j :: 0 <= j < |rest| ==> rest[j] == batch[j + 1];
  }

  /**
   The run's final checkpoint, with its epoch list; the induction behind
   RunEpochsNumbering. The induction is split over two mutually recursive
   lemmas that name the intermediate checkpoints, so that no proof has to
   unfold RunEpochs more than once.
   */
  lemma {:induction false} RunEpochsResult(c: Checkpoint, batch: seq<(int, seq<(string, Scalar)>)>)
    returns (r: Checkpoint)
    requires Valid(c) && c.epochOffset.Some? && BatchClean(c.meta, batch)
    ensures RunEpochs(c, batch) == Ok(r)
    ensures Valid(r) && Epochs(r) == Epochs(c) + Numbering(batch, c.epochOffset.value)
    decreases |batch|, 1
  {
    if |batch| == 0 {
      r := c;
    } else {
      r := RunEpochsCons(c, batch);
    }
  }

  /** The inductive step of RunEpochsResult: the first epoch, then the rest of the batch. */
  lemma {:induction false} RunEpochsCons(c: Checkpoint, batch: seq<(int, seq<(string, Scalar)>)>)
    returns (r: Checkpoint)
    requires Valid(c) && c.epochOffset.Some? && BatchClean(c.meta, batch) && |batch| > 0
    ensures RunEpochs(c, batch) == Ok(r)
    ensures Valid(r) && Epochs(r) == Epochs(c) + Numbering(batch, c.epochOffset.value)
    decreases |batch|, 0
  {
    var off := c.epochOffset.value;
    var c1 := RunEpochsStep(c, batch);
    var rest := batch[1..];
    r := RunEpochsResult(c1, rest);
    NumberingCons(batch, off);
    assert (Epochs(c) + [Int(batch[0].0 + off)]) + Numbering(rest, off)
           == Epochs(c) + ([Int(batch[0].0 + off)] + Numbering(rest, off));
  }

  /**
   With clean logs and the offset set, a run of epoch ends succeeds and
   appends exactly the offset epoch numbers, in order.
   */
  lemma RunEpochsNumbering(c: Checkpoint, batch: seq<(int, seq<(string, Scalar)>)>)
    requires Valid(c) && c.epochOffset.Some? && BatchClean(c.meta, batch)
    ensures RunEpochs(c, batch).Ok?
    ensures Epochs(RunEpochs(c, batch).value) == Epochs(c) + Numbering(batch, c.epochOffset.value)
  {
    var r := RunEpochsResult(c, batch);
  }

  /** The first epoch of a clean batch: recorded, and the rest of the batch stays clean. */
  lemma RunEpochsStep(c: Checkpoint, batch: seq<(int, seq<(string, Scalar)>)>) returns (c1: Checkpoint)
    requires Valid(c) && c.epochOffset.Some? && BatchClean(c.meta, batch) && |batch| > 0
    ensures Valid(c1) && c1.epochOffset == c.epochOffset
    ensures Epochs(c1) == Epochs(c) + [Int(batch[0].0 + c.epochOffset.value)]
    ensures BatchClean(c1.meta, batch[1..])
    ensures RunEpochs(c, batch) == RunEpochs(c1, batch[1..])
  {
    EpochEndEpochs(c, batch[0].0, batch[0].1);
    c1 := OnEpochEnd(c, batch[0].0, batch[0].1).value;
    BatchCleanTail(c.meta, c1.meta, batch);
  }

  /**
   Training again with the same callback: when k epochs are already recorded,
   beginning training and ending epochs 0, 1, ..., m-1 records the epoch
   numbers k, k+1, ..., k+m-1 after the existing ones.
   */
  lemma ResumeContinuity(c: Checkpoint, logs: seq<seq<(string, Scalar)>>)
    requires Valid(c)
    requires forall j :: 0 <= j < |logs| ==> Clean(c.meta, logs[j])
    ensures RunEpochs(OnTrainBegin(c), FromZero(logs)).Ok?
    ensures Epochs(RunEpochs(OnTrainBegin(c), FromZero(logs)).value) == Epochs(c) + Consecutive(|Epochs(c)|, |logs|)
  {
    FromZeroClean(c.meta, logs);
    var r := RunEpochsResult(OnTrainBegin(c), FromZero(logs));
    NumberingFromZero(logs, |Epochs(c)|);
  }

  /**
   A new callback numbers from 0. The trainer builds a new callback on every
   invocation, reloaded model or not, and the record it starts from holds no
   epochs, so its epochs are numbered 0, 1, ..., m-1 whatever earlier runs
   recorded.
   */
  lemma FreshCallbackNumbering(filepath: string, trainingArgs: Option<map<string, string>>,
                               logs: seq<seq<(string, Scalar)>>)
    requires forall j :: 0 <= j < |logs| ==> Clean(Init(filepath, None, trainingArgs).meta, logs[j])
    ensures RunEpochs(OnTrainBegin(Init(filepath, None, trainingArgs)), FromZero(logs)).Ok?
    ensures Epochs(RunEpochs(OnTrainBegin(Init(filepath, None, trainingArgs)), FromZero(logs)).value)
            == Consecutive(0, |logs|)
  {
    var c := Init(filepath, None, trainingArgs);
    ResumeContinuity(c, logs);
    assert Epochs(c) + Consecutive(0, |logs|) == Consecutive(0, |logs|);
  }

  lemma FromZeroClean(meta: Meta, logs: seq<seq<(string, Scalar)>>)
    requires forall j :: 0 <= j < |logs| ==> Clean(meta, logs[j])
    ensures BatchClean(meta, FromZero(logs))
  {
    var batch := FromZero(logs);
    forall j | 0 <= j < |batch| ensures Clean(meta, batch[j].1) {
      assert batch[j].1 == logs[j];
    }
  }

  lemma NumberingFromZero(logs: seq<seq<(string, Scalar)>>, start: int)
    ensures Numbering(FromZero(logs), start) == Consecutive(start, |logs|)
  {
  }

  /** The logs of consecutive epochs paired with the epoch indices 0, 1, 2, ... the trainer passes. */
  function FromZero(logs: seq<seq<(string, Scalar)>>): (batch: seq<(int, seq<(string, Scalar)>)>)
    ensures |batch| == |logs|
    ensures forall j :: 0 <= j < |logs| ==> batch[j] == (j, logs[j])
  {
    seq(|logs|, j requires 0 <= j < |logs| => (j, logs[j]))
  }

  /** The epoch numbers start, start + 1, ..., start + count - 1. */
  function Consecutive(start: int, count: nat): (r: seq<Scalar>)
    ensures |r| == count
    ensures forall j :: 0 <= j < count ==> r[j] == Int(start + j)
  {
    seq(count, j requires 0 <= j < count => Int(start + j))
  }
}
