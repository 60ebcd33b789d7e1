/** The task store: the ordered task list, the three fixed columns, and the
    read and write operations the board performs on them
    (src/App.js:9-13, 60, 95, 165-171). */
module Tasks {
  import opened Wrappers

  /** A task as the board holds it.  `status` is free text in the source;
      whether it names a column is an invariant, not a type fact. */
  datatype Task = Task(id: int, title: string, status: string)

  /** A column: its status key and its display label (`label` in the
      program; that word is reserved in Dafny). */
  datatype Column = Column(key: string, heading: string)

  /** The three columns, in display order. */
  const Columns: seq<Column> := [
    Column("incompleted", "Incompleted"),
    Column("ongoing", "Ongoing"),
    Column("completed", "Completed")
  ]

  predicate IsColumnKey(s: string)
  {
    exists col :: 0 <= col < |Columns| && Columns[col].key == s
  }

  /** Position of the column whose key is `key`, or -1 when there is none. */
  function ColumnIndex(key: string): (col: int)
    ensures -1 <= col < |Columns|
    ensures col >= 0 ==> Columns[col].key == key
    ensures col < 0 <==> !IsColumnKey(key)
  {
    if key == Columns[0].key then 0
    else if key == Columns[1].key then 1
    else if key == Columns[2].key then 2
    else -1
  }

  /** Column keys are pairwise distinct, so a key determines its column. */
  lemma ColumnKeysDistinct(a: int, b: int)
    requires 0 <= a < |Columns| && 0 <= b < |Columns|
    ensures Columns[a].key == Columns[b].key <==> a == b
  {
  }

  /** Every task's status is one of the column keys. */
  predicate StatusesValid(ts: seq<Task>)
  {
    forall i :: 0 <= i < |ts| ==> IsColumnKey(ts[i].status)
  }

  /** No two tasks share an id. */
  predicate UniqueIds(ts: seq<Task>)
  {
    forall i, j :: 0 <= i < |ts| && 0 <= j < |ts| && ts[i].id == ts[j].id ==> i == j
  }

  /** The per-column filter: the tasks whose status is `key`, in list order. */
  function InColumn(ts: seq<Task>, key: string): (r: seq<Task>)
    ensures |r| <= |ts|
    ensures forall i :: 0 <= i < |r| ==> r[i].status == key
  {
    if ts == [] then []
    else (if ts[0].status == key then [ts[0]] else []) + InColumn(ts[1..], key)
  }

  /** The column filter keeps exactly the tasks whose status is `key`. */
  lemma {:induction false} InColumnMembers(ts: seq<Task>, key: string)
    ensures forall t :: t in InColumn(ts, key) <==> t in ts && t.status == key
  {
    if ts != [] {
      InColumnMembers(ts[1..], key);
      assert ts == [ts[0]] + ts[1..];
    }
  }

  /** The status rewrite on drop: set the status
      of every task carrying `id` to `key`; every other task, and the order, stay. */
  function SetStatus(ts: seq<Task>, id: int, key: string): (r: seq<Task>)
    ensures |r| == |ts|
    ensures forall i :: 0 <= i < |ts| && ts[i].id != id ==> r[i] == ts[i]
    ensures forall i :: 0 <= i < |ts| && ts[i].id == id ==>
      r[i].id == id && r[i].title == ts[i].title && r[i].status == key
  {
    seq(|ts|, i requires 0 <= i < |ts| =>
      if ts[i].id == id then ts[i].(status := key) else ts[i])
  }

  /** Lookup by id: the first task carrying `id`. */
  function FindTask(ts: seq<Task>, id: int): (r: Option<Task>)
    ensures r.None? <==> forall i :: 0 <= i < |ts| ==> ts[i].id != id
    ensures r.Some? ==> r.value in ts && r.value.id == id
    ensures r.Some? ==> exists i :: 0 <= i < |ts| && ts[i] == r.value
                                    && forall j :: 0 <= j < i ==> ts[j].id != id
    ensures r.Some? && UniqueIds(ts) ==> forall i :: 0 <= i < |ts| && ts[i].id == id ==> r.value == ts[i]
  {
    if ts == [] then None
    else if ts[0].id == id then Some(ts[0])
    else
      var r := FindTask(ts[1..], id);
      assert r.Some? ==> exists i :: 1 <= i < |ts| && ts[i] == r.value
                                     && forall j :: 0 <= j < i ==> ts[j].id != id by {
        if r.Some? {
          var i :| 0 <= i < |ts[1..]| && ts[1..][i] == r.value
                   && forall j :: 0 <= j < i ==> ts[1..][j].id != id;
          assert ts[i + 1] == r.value;
          forall j | 0 <= j < i + 1 ensures ts[j].id != id {
            if j > 0 { assert ts[j] == ts[1..][j - 1]; }
          }
        }
      }
      r
  }

  /** Two task lists hold the same tasks, in the same order, with the same
      ids and titles; only statuses may differ. */
  predicate SameCards(a: seq<Task>, b: seq<Task>)
  {
    |a| == |b| &&
    forall i :: 0 <= i < |a| ==> a[i].id == b[i].id && a[i].title == b[i].title
  }

  /** Writing a column key keeps every status a column key, and changes no
      id, title or position. */
  lemma SetStatusKeepsInvariants(ts: seq<Task>, id: int, key: string)
    requires IsColumnKey(key)
    ensures StatusesValid(ts) ==> StatusesValid(SetStatus(ts, id, key))
    ensures UniqueIds(ts) ==> UniqueIds(SetStatus(ts, id, key))
    ensures SameCards(ts, SetStatus(ts, id, key))
  {
  }

  /** Setting a status every task with that id already has changes nothing;
      in particular this holds when no task carries the id. */
  lemma SetStatusUnchanged(ts: seq<Task>, id: int, key: string)
    requires forall i :: 0 <= i < |ts| && ts[i].id == id ==> ts[i].status == key
    ensures SetStatus(ts, id, key) == ts
  {
    var r := SetStatus(ts, id, key);
    assert forall i :: 0 <= i < |ts| ==> r[i] == ts[i];
  }

  /** The column filter distributes over concatenation. */
  lemma {:induction false} InColumnConcat(a: seq<Task>, b: seq<Task>, key: string)
    ensures InColumn(a + b, key) == InColumn(a, key) + InColumn(b, key)
  {
    if a != [] {
      InColumnConcat(a[1..], b, key);
      assert (a + b)[1..] == a[1..] + b;
    } else {
      assert a + b == b;
    }
  }

  /** One step of the column filter, as multisets. */
  lemma InColumnHead(ts: seq<Task>, key: string)
    requires ts != []
    ensures multiset(InColumn(ts, key)) ==
      (if ts[0].status == key then multiset{ts[0]} else multiset{}) + multiset(InColumn(ts[1..], key))
  {
  }

  /** The multiset of one column's tasks. */
  function ColumnBag(ts: seq<Task>, col: int): multiset<Task>
    requires 0 <= col < |Columns|
  {
    multiset(InColumn(ts, Columns[col].key))
  }

  /** Adding one task with a valid status to the front adds it to exactly
      the bag of its own column. */
  lemma ColumnBagsCons(ts: seq<Task>)
    requires ts != [] && IsColumnKey(ts[0].status)
    ensures ColumnBag(ts, 0) + ColumnBag(ts, 1) + ColumnBag(ts, 2)
         == multiset{ts[0]} + (ColumnBag(ts[1..], 0) + ColumnBag(ts[1..], 1) + ColumnBag(ts[1..], 2))
  {
    var t := ts[0];
    var c := ColumnIndex(t.status);
    InColumnHead(ts, Columns[0].key);
    InColumnHead(ts, Columns[1].key);
    InColumnHead(ts, Columns[2].key);
    ColumnKeysDistinct(0, c);
    ColumnKeysDistinct(1, c);
    ColumnKeysDistinct(2, c);
  }

  /** With valid statuses, the three column filters partition the task list:
      every task appears in exactly one column, as often as in the list. */
  lemma {:induction false} ColumnsPartition(ts: seq<Task>)
    requires StatusesValid(ts)
    ensures ColumnBag(ts, 0) + ColumnBag(ts, 1) + ColumnBag(ts, 2) == multiset(ts)
  {
    if ts != [] {
      var rest := ts[1..];
      assert StatusesValid(rest) by {
        forall i | 0 <= i < |rest| ensures IsColumnKey(rest[i].status) {
          assert rest[i] == ts[i + 1];
        }
      }
      ColumnsPartition(rest);
      ColumnBagsCons(ts);
      assert ts == [ts[0]] + rest;
      assert multiset(ts) == multiset{ts[0]} + multiset(rest);
    }
  }
}
