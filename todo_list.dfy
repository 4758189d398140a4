/**
 * The to-do list of the `Home` component as a value: each handler builds a new
 * list from the current one (spread for add, `map` for toggle, `filter` for
 * delete). Ids are compared with `===` and need not be unique, so toggle
 * and delete act on every record whose id matches.
 */
module TodoList {
  import opened Text

  /** One to-do record `{id, title, completed}`; the id is a millisecond timestamp. */
  datatype Todo = Todo(id: int, title: string, completed: bool)

  /** Number of records carrying `id`. */
  function Count(todos: seq<Todo>, id: int): nat {
    if todos == [] then 0
    else if todos[0].id == id then 1 + Count(todos[1..], id)
    else Count(todos[1..], id)
  }

  /**
   * The add handler's effect on the list: a blank title is rejected and the
   * list is kept; otherwise a new, not yet completed record is appended, with
   * the title exactly as typed (trim is only used for the emptiness test).
   */
  function Add(todos: seq<Todo>, id: int, title: string): (r: seq<Todo>)
    ensures IsBlank(title) ==> r == todos
    ensures !IsBlank(title) ==>
      |r| == |todos| + 1 && r[..|todos|] == todos && r[|todos|] == Todo(id, title, false)
  {
    TrimEmptyIffBlank(title);
    if Trim(title) == [] then todos else todos + [Todo(id, title, false)]
  }

  /** One record as the toggle handler's `map` callback returns it. */
  function Flip(t: Todo, id: int): Todo {
    if t.id == id then t.(completed := !t.completed) else t
  }

  /** The toggle handler: every record whose id matches has its `completed` flag negated. */
  function Toggle(todos: seq<Todo>, id: int): (r: seq<Todo>)
    ensures |r| == |todos|
    ensures forall i :: 0 <= i < |todos| ==>
      r[i].id == todos[i].id && r[i].title == todos[i].title &&
      r[i].completed == (if todos[i].id == id then !todos[i].completed else todos[i].completed)
  {
    if todos == [] then [] else [Flip(todos[0], id)] + Toggle(todos[1..], id)
  }

  /** The delete handler: keeps, in order, every record whose id does not match. */
  function Delete(todos: seq<Todo>, id: int): (r: seq<Todo>)
    ensures |r| <= |todos|
    ensures forall i :: 0 <= i < |r| ==> r[i].id != id
  {
    if todos == [] then []
    else if todos[0].id == id then Delete(todos[1..], id)
    else [todos[0]] + Delete(todos[1..], id)
  }

  /**
   * Positions, offset by `base`, of the records of `todos` whose id is not `id`,
   * in increasing order: the records `filter` keeps.
   */
  function KeptFrom(todos: seq<Todo>, id: int, base: int): (k: seq<int>)
    ensures |k| == |Delete(todos, id)|
  {
    if todos == [] then []
    else if todos[0].id == id then KeptFrom(todos[1..], id, base + 1)
    else [base] + KeptFrom(todos[1..], id, base + 1)
  }

  /** Positions in `todos` of the records a delete of `id` keeps. */
  function KeptPositions(todos: seq<Todo>, id: int): seq<int> {
    KeptFrom(todos, id, 0)
  }

  /** The j-th record Delete keeps is the one at the j-th kept position. */
  lemma {:induction false} KeptFromSelects(todos: seq<Todo>, id: int, base: int, j: int)
    requires 0 <= j < |KeptFrom(todos, id, base)|
    ensures base <= KeptFrom(todos, id, base)[j] < base + |todos|
    ensures Delete(todos, id)[j] == todos[KeptFrom(todos, id, base)[j] - base]
  {
    var rest := todos[1..];
    var j' := if todos[0].id == id then j else j - 1;
    if j' >= 0 {
      assert KeptFrom(todos, id, base)[j] == KeptFrom(rest, id, base + 1)[j'];
      assert Delete(todos, id)[j] == Delete(rest, id)[j'];
      KeptFromSelects(rest, id, base + 1, j');
      var i := KeptFrom(rest, id, base + 1)[j'] - (base + 1);
      assert rest[i] == todos[i + 1];
    } else {
      assert KeptFrom(todos, id, base)[0] == base;
      assert Delete(todos, id)[0] == todos[0];
    }
  }

  /** Kept positions come in strictly increasing order. */
  lemma {:induction false} KeptFromIncreasing(todos: seq<Todo>, id: int, base: int)
    ensures forall j, j' :: 0 <= j < j' < |KeptFrom(todos, id, base)| ==>
      KeptFrom(todos, id, base)[j] < KeptFrom(todos, id, base)[j']
  {
    if todos != [] {
      KeptFromIncreasing(todos[1..], id, base + 1);
      var k, k' := KeptFrom(todos, id, base), KeptFrom(todos[1..], id, base + 1);
      if todos[0].id != id {
        assert k == [base] + k';
        assert k[0] == base;
        forall j, j' | 0 <= j < j' < |k| ensures k[j] < k[j'] {
          KeptFromSelects(todos[1..], id, base + 1, j' - 1);
          assert k[j'] == k'[j' - 1];
          if j > 0 {
            assert k[j] == k'[j - 1] < k'[j' - 1];
          }
        }
      } else {
        assert k == k';
      }
    }
  }

  /** A position is kept exactly when its record's id differs from `id`. */
  lemma {:induction false} KeptFromMembers(todos: seq<Todo>, id: int, base: int)
    ensures forall i :: 0 <= i < |todos| ==>
      (base + i in KeptFrom(todos, id, base) <==> todos[i].id != id)
  {
    var k := KeptFrom(todos, id, base);
    forall i | 0 <= i < |todos| && base + i in k ensures todos[i].id != id {
      var j :| 0 <= j < |k| && k[j] == base + i;
      KeptFromSelects(todos, id, base, j);
    }
    if todos != [] {
      KeptFromMembers(todos[1..], id, base + 1);
      var k' := KeptFrom(todos[1..], id, base + 1);
      assert k == (if todos[0].id != id then [base] else []) + k';
      forall i | 0 < i < |todos| && todos[i].id != id ensures base + i in k {
        assert todos[i] == todos[1..][i - 1];
        assert (base + 1) + (i - 1) in k';
      }
    }
  }

  /** The j-th record Delete keeps is the one at the j-th kept position. */
  lemma KeptPositionsSelect(todos: seq<Todo>, id: int)
    ensures forall j :: 0 <= j < |KeptPositions(todos, id)| ==>
      0 <= KeptPositions(todos, id)[j] < |todos| &&
      Delete(todos, id)[j] == todos[KeptPositions(todos, id)[j]]
  {
    forall j | 0 <= j < |KeptPositions(todos, id)|
      ensures 0 <= KeptPositions(todos, id)[j] < |todos|
      ensures Delete(todos, id)[j] == todos[KeptPositions(todos, id)[j]]
    {
      KeptFromSelects(todos, id, 0, j);
    }
  }

  /** Kept positions are strictly increasing. */
  lemma KeptPositionsIncreasing(todos: seq<Todo>, id: int)
    ensures forall j, j' :: 0 <= j < j' < |KeptPositions(todos, id)| ==>
      KeptPositions(todos, id)[j] < KeptPositions(todos, id)[j']
  {
    KeptFromIncreasing(todos, id, 0);
  }

  /** A position is kept exactly when its record's id differs. */
  lemma KeptPositionsMembers(todos: seq<Todo>, id: int)
    ensures forall i :: 0 <= i < |todos| ==> (i in KeptPositions(todos, id) <==> todos[i].id != id)
  {
    KeptFromMembers(todos, id, 0);
  }

  /**
   * Delete is exactly `filter`: its result lists, in their original relative
   * order, precisely the records whose id differs from `id`.
   */
  lemma DeleteIsOrderedFilter(todos: seq<Todo>, id: int)
    ensures |KeptPositions(todos, id)| == |Delete(todos, id)|
    ensures forall j :: 0 <= j < |KeptPositions(todos, id)| ==>
      0 <= KeptPositions(todos, id)[j] < |todos| &&
      Delete(todos, id)[j] == todos[KeptPositions(todos, id)[j]]
    ensures forall j, j' :: 0 <= j < j' < |KeptPositions(todos, id)| ==>
      KeptPositions(todos, id)[j] < KeptPositions(todos, id)[j']
    ensures forall i :: 0 <= i < |todos| ==> (i in KeptPositions(todos, id) <==> todos[i].id != id)
  {
    KeptPositionsSelect(todos, id);
    KeptPositionsIncreasing(todos, id);
    KeptPositionsMembers(todos, id);
  }

  /** Toggling the same id twice gives back the original list. */
  lemma ToggleTwice(todos: seq<Todo>, id: int)
    ensures Toggle(Toggle(todos, id), id) == todos
  {
    var r := Toggle(Toggle(todos, id), id);
    assert forall i :: 0 <= i < |todos| ==> r[i] == todos[i];
  }

  /** Toggling an id no record carries changes nothing. */
  lemma ToggleAbsent(todos: seq<Todo>, id: int)
    requires forall i :: 0 <= i < |todos| ==> todos[i].id != id
    ensures Toggle(todos, id) == todos
  {
    var r := Toggle(todos, id);
    assert forall i :: 0 <= i < |todos| ==> r[i] == todos[i];
  }

  /** Delete removes exactly as many records as carry the id. */
  lemma {:induction false} DeleteLength(todos: seq<Todo>, id: int)
    ensures |Delete(todos, id)| == |todos| - Count(todos, id)
  {
    if todos != [] {
      DeleteLength(todos[1..], id);
    }
  }

  /** No record carries the id exactly when its count is zero. */
  lemma {:induction false} CountZero(todos: seq<Todo>, id: int)
    ensures Count(todos, id) == 0 <==> forall i :: 0 <= i < |todos| ==> todos[i].id != id
  {
    if todos != [] {
      CountZero(todos[1..], id);
      assert forall i :: 0 < i < |todos| ==> todos[i] == todos[1..][i - 1];
    }
  }

  /** Delete keeps every record exactly when no record carries the id. */
  lemma DeleteKeepsAllIffAbsent(todos: seq<Todo>, id: int)
    ensures |Delete(todos, id)| == |todos| <==> forall i :: 0 <= i < |todos| ==> todos[i].id != id
  {
    DeleteLength(todos, id);
    CountZero(todos, id);
  }

  /** Deleting an id no record carries changes nothing. */
  lemma {:induction false} DeleteAbsent(todos: seq<Todo>, id: int)
    requires forall i :: 0 <= i < |todos| ==> todos[i].id != id
    ensures Delete(todos, id) == todos
  {
    if todos != [] {
      DeleteAbsent(todos[1..], id);
      assert todos == [todos[0]] + todos[1..];
    }
  }

  /** Deleting the same id twice is the same as deleting it once. */
  lemma DeleteIdempotent(todos: seq<Todo>, id: int)
    ensures Delete(Delete(todos, id), id) == Delete(todos, id)
  {
    DeleteAbsent(Delete(todos, id), id);
  }

  /** Toggling a record and then deleting it is the same as deleting it. */
  lemma {:induction false} DeleteAfterToggle(todos: seq<Todo>, id: int)
    ensures Delete(Toggle(todos, id), id) == Delete(todos, id)
  {
    if todos != [] {
      DeleteAfterToggle(todos[1..], id);
      assert Toggle(todos, id)[1..] == Toggle(todos[1..], id);
    }
  }

  /** Toggle and delete commute, for any two ids. */
  lemma {:induction false} ToggleDeleteCommute(todos: seq<Todo>, a: int, b: int)
    ensures Delete(Toggle(todos, a), b) == Toggle(Delete(todos, b), a)
  {
    if a == b {
      // both sides are the plain delete: nothing toggled survives it
      DeleteAfterToggle(todos, a);
      ToggleAbsent(Delete(todos, a), a);
    } else if todos != [] {
      ToggleDeleteCommute(todos[1..], a, b);
      assert Toggle(todos, a)[1..] == Toggle(todos[1..], a);
    }
  }

  /** Every title in the list is non-blank: what the add handler guarantees of the records it creates. */
  predicate TitlesFilled(todos: seq<Todo>) {
    forall i :: 0 <= i < |todos| ==> !IsBlank(todos[i].title)
  }

  /** Add never lets a blank title into the list. */
  lemma AddKeepsTitlesFilled(todos: seq<Todo>, id: int, title: string)
    requires TitlesFilled(todos)
    ensures TitlesFilled(Add(todos, id, title))
  {
  }

  /** Toggle never touches a title, so it keeps them all non-blank. */
  lemma ToggleKeepsTitlesFilled(todos: seq<Todo>, id: int)
    requires TitlesFilled(todos)
    ensures TitlesFilled(Toggle(todos, id))
  {
  }

  /** Delete only keeps records it was given, so it keeps every title non-blank. */
  lemma DeleteKeepsTitlesFilled(todos: seq<Todo>, id: int)
    requires TitlesFilled(todos)
    ensures TitlesFilled(Delete(todos, id))
  {
    DeleteIsOrderedFilter(todos, id);
  }

  /**
   * The walk-through, for distinct ids: starting empty, add "A" and "B",
   * complete "A", delete "B"; what is left is "A", completed.
   */
  lemma AddToggleDeleteScenario(a: int, b: int)
    requires a != b
    ensures Delete(Toggle(Add(Add([], a, "A"), b, "B"), a), b) == [Todo(a, "A", true)]
  {
    assert !IsWhitespace("A"[0]) && !IsWhitespace("B"[0]);
    var l1 := Add([], a, "A");
    assert l1 == [Todo(a, "A", false)];
    var l2 := Add(l1, b, "B");
    assert l2 == [Todo(a, "A", false), Todo(b, "B", false)];
    var t := Toggle(l2, a);
    assert t[0] == Todo(a, "A", true) && t[1] == Todo(b, "B", false);
    var r := Delete(t, b);
    assert r == [t[0]] + Delete(t[1..], b);
    assert Delete(t[1..], b) == [] + Delete(t[2..], b);
  }

  /**
   * The same walk-through when both adds read the same clock value: toggle
   * flips both records and delete removes both, so nothing is left.
   */
  lemma AddToggleDeleteSameIdScenario(a: int)
    ensures Delete(Toggle(Add(Add([], a, "A"), a, "B"), a), a) == []
  {
    assert !IsWhitespace("A"[0]) && !IsWhitespace("B"[0]);
    var l2 := Add(Add([], a, "A"), a, "B");
    assert l2 == [Todo(a, "A", false), Todo(a, "B", false)];
    var t := Toggle(l2, a);
    assert t[0].id == a && t[1].id == a;
    assert Delete(t, a) == Delete(t[1..], a);
    assert Delete(t[1..], a) == Delete(t[2..], a);
  }
}
