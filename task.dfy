/**
 * The task entity: its two enumerations and the three-field record.
 * Swift's struct `Task` is a value type; a Dafny datatype is one too, and
 * a property write `task.title = x` on a copy is the update `t.(title := x)`,
 * which builds a new value and leaves `t` as it was.
 */
module Tasks {
  import opened Wrappers

  /** The priority of a task, which decides its table section. */
  datatype TaskPriority = Normal | Important

  /** The status of a task; Swift gives it `Int` raw values. */
  datatype TaskStatus = Planned | Completed

  /** A task. The Swift property `type` is named `priority` here. */
  datatype Task = Task(title: string, priority: TaskPriority, status: TaskStatus)

  /** The synthesized `rawValue` of a status: cases are numbered from 0 in declaration order. */
  function StatusRawValue(s: TaskStatus): (r: int)
    ensures 0 <= r <= 1
  {
    match s
    case Planned => 0
    case Completed => 1
  }

  /** The synthesized failable `init?(rawValue:)`: nil for any number that is not a raw value. */
  function StatusFromRawValue(r: int): (s: Option<TaskStatus>)
    ensures s.Some? <==> r == 0 || r == 1
    ensures s.Some? ==> StatusRawValue(s.value) == r
  {
    if r == 0 then Some(Planned)
    else if r == 1 then Some(Completed)
    else None
  }

  /** Every status survives the trip through its raw value, and planned is 0, completed 1. */
  lemma StatusRawValueRoundTrip(s: TaskStatus)
    ensures StatusFromRawValue(StatusRawValue(s)) == Some(s)
    ensures StatusRawValue(Planned) == 0 && StatusRawValue(Completed) == 1
  {
  }

  /** There are exactly two priorities: a map keyed by priority has one key for each priority present, so at most two. */
  lemma PriorityMapKeys<V>(m: map<TaskPriority, V>)
    ensures |m| <= 2
    ensures |m| == (if Normal in m then 1 else 0) + (if Important in m then 1 else 0)
    ensures |m| == 2 <==> Normal in m && Important in m
    ensures Normal in m && Important in m ==> m.Keys == {Normal, Important}
  {
    assert forall p | p in m.Keys :: p == Normal || p == Important by {
      forall p | p in m.Keys ensures p == Normal || p == Important {
        match p
        case Normal =>
        case Important =>
      }
    }
    if Normal in m && Important in m {
      assert m.Keys == {Normal, Important};
    } else if Normal in m {
      assert m.Keys == {Normal};
    } else if Important in m {
      assert m.Keys == {Important};
    } else {
      assert m.Keys == {};
    }
  }

  /**
   * Each of the three fields can be written on its own; a write changes
   * only that field of the copy, and the original value is untouched.
   */
  lemma FieldWritesAreLocal(t: Task, title: string, priority: TaskPriority, status: TaskStatus)
    ensures var u := t.(title := title); u.title == title && u.priority == t.priority && u.status == t.status
    ensures var u := t.(priority := priority); u.title == t.title && u.priority == priority && u.status == t.status
    ensures var u := t.(status := status); u.title == t.title && u.priority == t.priority && u.status == status
  {
  }
}
