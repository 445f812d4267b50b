/**
 * Persistence of tasks as flat string records. The key-value store itself
 * is abstract: `LoadTask` receives what the store holds under the storage
 * key after the cast to an array of string dictionaries (None when the key
 * is absent or the value has another type), and `SaveTask` returns the value
 * it writes there.
 */
module TaskStorage {
  import opened Wrappers
  import opened Tasks

  /** One stored task: a string-to-string dictionary. */
  type Record = map<string, string>

  /** The keys of a stored record. */
  datatype TaskKey = Title | Type | Status {
    function RawValue(): (r: string)
      ensures |r| > 0
    {
      match this
      case Title => "title"
      case Type => "type"
      case Status => "status"
    }
  }

  /** The three record keys are three different strings. */
  lemma TaskKeysDistinct(a: TaskKey, b: TaskKey)
    ensures Title.RawValue() == "title" && Type.RawValue() == "type" && Status.RawValue() == "status"
    ensures a != b ==> a.RawValue() != b.RawValue()
  {
  }

  /** The set of keys every saved record has. */
  function RecordKeys(): set<string>
  {
    {Title.RawValue(), Type.RawValue(), Status.RawValue()}
  }

  /** Lenient decoding of a priority: only "important" is important. */
  function DecodePriority(s: string): (p: TaskPriority)
    ensures p == Important <==> s == "important"
    ensures p == Normal <==> s != "important"
  {
    if s == "important" then Important else Normal
  }

  /** Lenient decoding of a status: only "planned" is planned, anything else is completed. */
  function DecodeStatus(s: string): (st: TaskStatus)
    ensures st == Planned <==> s == "planned"
    ensures st == Completed <==> s != "planned"
  {
    if s == "planned" then Planned else Completed
  }

  /** The stored spelling of a priority, which decodes back to it. */
  function EncodePriority(p: TaskPriority): (s: string)
    ensures s == "important" || s == "normal"
    ensures DecodePriority(s) == p
  {
    if p == Important then "important" else "normal"
  }

  /** The stored spelling of a status, which decodes back to it. */
  function EncodeStatus(st: TaskStatus): (s: string)
    ensures s == "planned" || s == "completed"
    ensures DecodeStatus(s) == st
  {
    if st == Planned then "planned" else "completed"
  }

  /**
   * One record read back: None (the record is skipped) exactly when one of
   * the three keys is missing; extra keys are ignored.
   */
  function DecodeRecord(rec: Record): (r: Option<Task>)
    ensures r.None? <==> !(RecordKeys() <= rec.Keys)
  {
    if Title.RawValue() in rec && Type.RawValue() in rec && Status.RawValue() in rec then
      Some(Task(rec[Title.RawValue()], DecodePriority(rec[Type.RawValue()]), DecodeStatus(rec[Status.RawValue()])))
    else
      None
  }

  /**
   * A record that holds the three keys decodes leniently: the title as
   * stored, important only for "important", planned only for "planned".
   */
  lemma DecodeRecordLenient(rec: Record)
    requires RecordKeys() <= rec.Keys
    ensures DecodeRecord(rec).Some?
    ensures DecodeRecord(rec).value.title == rec[Title.RawValue()]
    ensures DecodeRecord(rec).value.priority == Important <==> rec[Type.RawValue()] == "important"
    ensures DecodeRecord(rec).value.status == Planned <==> rec[Status.RawValue()] == "planned"
  {
  }

  /**
   * One record as written: exactly the three keys, the title unchanged,
   * and a record that decodes back to the task.
   */
  function EncodeTask(t: Task): (r: Record)
    ensures r.Keys == RecordKeys()
    ensures r[Title.RawValue()] == t.title
    ensures r[Type.RawValue()] == (if t.priority == Important then "important" else "normal")
    ensures r[Status.RawValue()] == (if t.status == Planned then "planned" else "completed")
    ensures DecodeRecord(r) == Some(t)
  {
    map[Title.RawValue() := t.title,
        Type.RawValue() := EncodePriority(t.priority),
        Status.RawValue() := EncodeStatus(t.status)]
  }

  /** A record in canonical form (the three keys, spellings the encoder uses) is what its decoded task encodes to. */
  lemma CanonicalRecordRoundTrip(rec: Record)
    requires rec.Keys == RecordKeys()
    requires rec[Type.RawValue()] == "important" || rec[Type.RawValue()] == "normal"
    requires rec[Status.RawValue()] == "planned" || rec[Status.RawValue()] == "completed"
    ensures DecodeRecord(rec).Some? && EncodeTask(DecodeRecord(rec).value) == rec
  {
  }

  /** The tasks a record contributes: the decoded task, or nothing. */
  function Kept(rec: Record): seq<Task>
  {
    match DecodeRecord(rec)
    case Some(t) => [t]
    case None => []
  }

  /** What decoding a sequence of records yields: the records that decode, in order. */
  function DecodeAll(rs: seq<Record>): (ts: seq<Task>)
    ensures |ts| <= |rs|
  {
    if |rs| == 0 then [] else DecodeAll(rs[..|rs| - 1]) + Kept(rs[|rs| - 1])
  }

  /** The stored records, or none when nothing of the right type is stored. */
  function StoredRecords(stored: Option<seq<Record>>): (rs: seq<Record>)
    ensures stored.None? ==> rs == []
    ensures stored.Some? ==> rs == stored.value
  {
    match stored
    case Some(rs) => rs
    case None => []
  }

  /** The positions of the records that survive decoding, in increasing order. */
  function KeptIndices(rs: seq<Record>): (ix: seq<nat>)
    ensures |ix| <= |rs|
  {
    if |rs| == 0 then []
    else if DecodeRecord(rs[|rs| - 1]).Some? then KeptIndices(rs[..|rs| - 1]) + [|rs| - 1]
    else KeptIndices(rs[..|rs| - 1])
  }

  /** The k-th decoded task comes from the record at the k-th surviving position. */
  lemma {:induction false} KeptIndicesDecode(rs: seq<Record>)
    ensures |KeptIndices(rs)| == |DecodeAll(rs)|
    ensures forall k :: 0 <= k < |KeptIndices(rs)| ==>
      KeptIndices(rs)[k] < |rs| && DecodeRecord(rs[KeptIndices(rs)[k]]) == Some(DecodeAll(rs)[k])
    decreases |rs|
  {
    if |rs| > 0 {
      var n := |rs| - 1;
      var front := rs[..n];
      KeptIndicesDecode(front);
      assert forall i :: 0 <= i < n ==> front[i] == rs[i];
    }
  }

  /** The surviving positions are strictly increasing, so decoding keeps the stored order. */
  lemma {:induction false} KeptIndicesIncreasing(rs: seq<Record>)
    ensures forall k :: 0 <= k < |KeptIndices(rs)| ==> KeptIndices(rs)[k] < |rs|
    ensures forall k, l :: 0 <= k < l < |KeptIndices(rs)| ==> KeptIndices(rs)[k] < KeptIndices(rs)[l]
    decreases |rs|
  {
    if |rs| > 0 {
      KeptIndicesIncreasing(rs[..|rs| - 1]);
    }
  }

  /** Every record outside the surviving positions is one that lacks a key. */
  lemma {:induction false} KeptIndicesSkipped(rs: seq<Record>)
    ensures forall i :: 0 <= i < |rs| && i !in KeptIndices(rs) ==> !(RecordKeys() <= rs[i].Keys)
    decreases |rs|
  {
    if |rs| > 0 {
      var n := |rs| - 1;
      var front := rs[..n];
      KeptIndicesSkipped(front);
      assert forall i :: 0 <= i < n ==> front[i] == rs[i];
    }
  }

  /** Decoding distributes over concatenation of record sequences. */
  lemma {:induction false} DecodeAllAppend(a: seq<Record>, b: seq<Record>)
    ensures DecodeAll(a + b) == DecodeAll(a) + DecodeAll(b)
    decreases |b|
  {
    if |b| == 0 {
      assert a + b == a;
    } else {
      var n := |b| - 1;
      assert (a + b)[..|a + b| - 1] == a + b[..n];
      assert (a + b)[|a + b| - 1] == b[n];
      DecodeAllAppend(a, b[..n]);
    }
  }

  /** The record written for a task contributes exactly that task when read back. */
  lemma KeptEncoded(t: Task)
    ensures Kept(EncodeTask(t)) == [t]
  {
  }

  /** The records written for a sequence of tasks: one per task, in order, each the task's encoding. */
  function EncodeAll(ts: seq<Task>): (rs: seq<Record>)
    ensures |rs| == |ts|
    ensures forall i :: 0 <= i < |ts| ==> rs[i] == EncodeTask(ts[i])
  {
    if |ts| == 0 then [] else EncodeAll(ts[..|ts| - 1]) + [EncodeTask(ts[|ts| - 1])]
  }

  /** The records written for a non-empty sequence: those for all but its last task, then the last task's record. */
  lemma EncodeAllLast(ts: seq<Task>)
    requires |ts| > 0
    ensures EncodeAll(ts)[..|ts| - 1] == EncodeAll(ts[..|ts| - 1])
    ensures DecodeAll(EncodeAll(ts)) == DecodeAll(EncodeAll(ts[..|ts| - 1])) + Kept(EncodeTask(ts[|ts| - 1]))
  {
  }

  /** Decoding the records written for any task sequence gives back that sequence. */
  lemma {:induction false} DecodeEncodeAll(ts: seq<Task>)
    ensures DecodeAll(EncodeAll(ts)) == ts
    decreases |ts|
  {
    if |ts| > 0 {
      var n := |ts| - 1;
      EncodeAllLast(ts);
      DecodeEncodeAll(ts[..n]);
      KeptEncoded(ts[n]);
      assert ts == ts[..n] + [ts[n]];
    }
  }

  /**
   * Reads the stored tasks: the records that hold all three keys, decoded
   * in order; nothing when no array of records is stored.
   */
  method LoadTask(stored: Option<seq<Record>>) returns (resultTasks: seq<Task>)
    ensures resultTasks == DecodeAll(StoredRecords(stored))
    ensures |resultTasks| <= |StoredRecords(stored)|
    ensures stored.None? ==> resultTasks == []
  {
    resultTasks := [];
    var tasksFromStorage := StoredRecords(stored);
    for i := 0 to |tasksFromStorage|
      invariant resultTasks == DecodeAll(tasksFromStorage[..i])
    {
      assert tasksFromStorage[..i + 1][..i] == tasksFromStorage[..i];
      var task := tasksFromStorage[i];
      if !(Title.RawValue() in task && Type.RawValue() in task && Status.RawValue() in task) {
        continue;
      }
      var title := task[Title.RawValue()];
      var typeRaw := task[Type.RawValue()];
      var statusRaw := task[Status.RawValue()];
      var priority := if typeRaw == "important" then Important else Normal;
      var status := if statusRaw == "planned" then Planned else Completed;
      resultTasks := resultTasks + [Task(title, priority, status)];
    }
    assert tasksFromStorage[..|tasksFromStorage|] == tasksFromStorage;
  }

  /** Builds the value to store: one record per task, in order, each the task's encoding. */
  method SaveTask(tasks: seq<Task>) returns (stored: Option<seq<Record>>)
    ensures stored == Some(EncodeAll(tasks))
    ensures |stored.value| == |tasks|
    ensures forall i :: 0 <= i < |tasks| ==> stored.value[i] == EncodeTask(tasks[i])
  {
    var arrayForStorage: seq<Record> := [];
    for i := 0 to |tasks|
      invariant arrayForStorage == EncodeAll(tasks[..i])
    {
      assert tasks[..i + 1][..i] == tasks[..i];
      var task := tasks[i];
      var newElementForStorage: Record := map[];
      newElementForStorage := newElementForStorage[Title.RawValue() := task.title];
      newElementForStorage := newElementForStorage[Type.RawValue() := if task.priority == Important then "important" else "normal"];
      newElementForStorage := newElementForStorage[Status.RawValue() := if task.status == Planned then "planned" else "completed"];
      assert newElementForStorage == EncodeTask(task);
      arrayForStorage := arrayForStorage + [newElementForStorage];
    }
    assert tasks[..|tasks|] == tasks;
    stored := Some(arrayForStorage);
  }

  /** Saving and then loading gives back every task, with its title, priority and status, in order. */
  method SaveThenLoad(tasks: seq<Task>) returns (loaded: seq<Task>)
    ensures loaded == tasks
  {
    var stored := SaveTask(tasks);
    loaded := LoadTask(stored);
    DecodeEncodeAll(tasks);
  }
}
