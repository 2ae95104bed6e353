/** The todo list as a value: the entity, the blank-title test that guards a
    submit, and the pure list transforms the handlers of `App` apply
    (append, update in place, remove by id, toggle, and the filter view). */
module Todos {
  import opened Seqs

  /** One task. `id` is the creation timestamp the app assigns. */
  datatype Todo = Todo(id: int, title: string, desc: string, completed: bool)

  /** The view filter: the app only ever sets `"all"` or `"completed"`. */
  datatype FilterMode = All | Completed

  /* ---------------- Blank input: JavaScript's String.prototype.trim ---------------- */

  /** ECMAScript WhiteSpace and LineTerminator code points: TAB, VT, FF, SPACE,
      NBSP, ZWNBSP, LF, CR, LS, PS and the other members of Unicode category Zs. */
  predicate IsWhitespace(c: char)
  {
    c == '\t' || c == '\n' || c == '\U{000B}' || c == '\U{000C}' || c == '\r' ||
    c == ' ' || c == '\U{00A0}' || c == '\U{1680}' ||
    ('\U{2000}' <= c <= '\U{200A}') ||
    c == '\U{2028}' || c == '\U{2029}' || c == '\U{202F}' || c == '\U{205F}' ||
    c == '\U{3000}' || c == '\U{FEFF}'
  }

  /** Every character of `s` is whitespace (this includes the empty string). */
  predicate IsBlank(s: string)
  {
    forall i :: 0 <= i < |s| ==> IsWhitespace(s[i])
  }

  /** Drops leading whitespace: the result is a suffix of `s` that does not
      start with whitespace, and everything dropped was whitespace. */
  function TrimStart(s: string): (r: string)
    ensures |r| <= |s| && r == s[|s| - |r|..]
    ensures r == [] || !IsWhitespace(r[0])
    ensures forall i :: 0 <= i < |s| - |r| ==> IsWhitespace(s[i])
  {
    if s != [] && IsWhitespace(s[0]) then TrimStart(s[1..]) else s
  }

  /** Drops trailing whitespace: the result is a prefix of `s` that does not
      end with whitespace, and everything dropped was whitespace. */
  function TrimEnd(s: string): (r: string)
    ensures |r| <= |s| && r == s[..|r|]
    ensures r == [] || !IsWhitespace(r[|r| - 1])
    ensures forall i :: |r| <= i < |s| ==> IsWhitespace(s[i])
  {
    if s != [] && IsWhitespace(s[|s| - 1]) then TrimEnd(s[..|s| - 1]) else s
  }

  /** `s.trim()`: no whitespace is left at either end, and it is empty exactly
      when `s` is blank (the test `!input.trim()`). TrimIsSlice shows it is
      the slice of `s` between its leading and trailing whitespace. */
  function Trim(s: string): (r: string)
    ensures |r| <= |s|
    ensures r != [] ==> !IsWhitespace(r[0]) && !IsWhitespace(r[|r| - 1])
    ensures r == [] <==> IsBlank(s)
  {
    var t := TrimStart(s);
    var r := TrimEnd(t);
    TrimBlank(s, t, r);
    r
  }

  /** `s.trim()` is the contiguous slice of `s` that starts after its leading
      whitespace; only whitespace lies before and after it. */
  lemma TrimIsSlice(s: string)
    ensures |s| - |TrimStart(s)| + |Trim(s)| <= |s|
    ensures Trim(s) == s[|s| - |TrimStart(s)|..|s| - |TrimStart(s)| + |Trim(s)|]
    ensures forall i :: 0 <= i < |s| - |TrimStart(s)| ==> IsWhitespace(s[i])
    ensures forall i :: |s| - |TrimStart(s)| + |Trim(s)| <= i < |s| ==> IsWhitespace(s[i])
  {
    var t := TrimStart(s);
    var r := TrimEnd(t);
    assert Trim(s) == r;
    var k := |s| - |t|;
    assert k + |t| == |s| && t == s[k..];
    assert |r| <= |t| && r == t[..|r|];
    assert forall j :: |r| <= j < |t| ==> IsWhitespace(t[j]);
    TrimSlice(s, t, r, k);
  }

  /** The trimmed string is empty exactly when the input is blank. */
  lemma TrimBlank(s: string, t: string, r: string)
    requires t == TrimStart(s) && r == TrimEnd(t)
    ensures r == [] <==> IsBlank(s)
  {
    assert r != [] ==> r[0] == t[0];
    assert t != [] ==> s[|s| - |t|] == t[0];
    assert IsBlank(s) ==> t == [];
  }

  /** A prefix `r` of the suffix `t == s[k..]`, followed in `t` only by
      whitespace, is the slice `s[k..k + |r|]`, followed in `s` only by whitespace. */
  lemma TrimSlice(s: string, t: string, r: string, k: nat)
    requires k + |t| == |s| && t == s[k..] && |r| <= |t| && r == t[..|r|]
    requires forall j :: |r| <= j < |t| ==> IsWhitespace(t[j])
    ensures r == s[k..k + |r|]
    ensures forall i :: k + |r| <= i < |s| ==> IsWhitespace(s[i])
  {
    assert forall j :: 0 <= j < |r| ==> r[j] == t[j] == s[k + j];
    forall i | k + |r| <= i < |s| ensures IsWhitespace(s[i]) {
      assert s[i] == t[i - k];
    }
  }

  /* ---------------- Identity of todos ---------------- */

  /** Some todo in the list carries `id`. */
  predicate HasId(todos: seq<Todo>, id: int)
  {
    exists i :: 0 <= i < |todos| && todos[i].id == id
  }

  /** No two todos in the list share an id. */
  predicate UniqueIds(todos: seq<Todo>)
  {
    forall i, j :: 0 <= i < j < |todos| ==> todos[i].id != todos[j].id
  }

  /** Appending a todo whose id is not yet used keeps the ids unique. */
  lemma AppendFreshKeepsUnique(todos: seq<Todo>, t: Todo)
    requires UniqueIds(todos) && !HasId(todos, t.id)
    ensures UniqueIds(todos + [t])
  {
    forall i, j | 0 <= i < j < |todos| + 1
      ensures (todos + [t])[i].id != (todos + [t])[j].id
    {
      if j == |todos| {
        assert (todos + [t])[i] == todos[i];
      }
    }
  }

  /** Appending a todo whose id is already used breaks uniqueness: this is what
      happens when two todos are created within the same clock tick. */
  lemma AppendCollidingBreaksUnique(todos: seq<Todo>, t: Todo)
    requires HasId(todos, t.id)
    ensures !UniqueIds(todos + [t])
  {
    var i :| 0 <= i < |todos| && todos[i].id == t.id;
    assert (todos + [t])[i].id == (todos + [t])[|todos|].id;
  }

  /** A subsequence of a list with unique ids has unique ids. */
  lemma {:induction false} SubsequenceKeepsUnique(r: seq<Todo>, s: seq<Todo>)
    requires IsSubsequence(r, s) && UniqueIds(s)
    ensures UniqueIds(r)
  {
    if r != [] {
      assert UniqueIds(s[1..]) by {
        forall i, j | 0 <= i < j < |s| - 1 ensures s[1..][i].id != s[1..][j].id {
          assert s[1..][i] == s[i + 1] && s[1..][j] == s[j + 1];
        }
      }
      if r[0] == s[0] && IsSubsequence(r[1..], s[1..]) {
        SubsequenceKeepsUnique(r[1..], s[1..]);
        SubsequenceMembers(r[1..], s[1..]);
        forall i, j | 0 <= i < j < |r| ensures r[i].id != r[j].id {
          if i == 0 {
            assert r[j] == r[1..][j - 1];
            assert r[j] in s[1..];
            var k :| 0 <= k < |s| - 1 && s[1..][k] == r[j];
            assert s[k + 1] == r[j];
          } else {
            assert r[i] == r[1..][i - 1] && r[j] == r[1..][j - 1];
          }
        }
      } else {
        SubsequenceKeepsUnique(r, s[1..]);
      }
    }
  }

  /* ---------------- The list transforms ---------------- */

  /** The edit commit `{ ...todo, title, desc }` applied where the id matches:
      length, order, ids and completion flags are kept; every todo carrying
      `id` gets the new title and description, and every other todo is untouched. */
  function UpdateWhere(todos: seq<Todo>, id: int, title: string, desc: string): (r: seq<Todo>)
    ensures |r| == |todos|
    ensures forall i :: 0 <= i < |r| ==> r[i].id == todos[i].id && r[i].completed == todos[i].completed
    ensures forall i :: 0 <= i < |r| && todos[i].id == id ==> r[i].title == title && r[i].desc == desc
    ensures forall i :: 0 <= i < |r| && todos[i].id != id ==> r[i] == todos[i]
  {
    Map((t: Todo) => if t.id == id then t.(title := title, desc := desc) else t, todos)
  }

  /** `{ ...todo, completed: !todo.completed }` applied where the id matches:
      length, order, ids, titles and descriptions are kept; the flag flips on
      every todo carrying `id` and nothing else changes. */
  function ToggleWhere(todos: seq<Todo>, id: int): (r: seq<Todo>)
    ensures |r| == |todos|
    ensures forall i :: 0 <= i < |r| ==>
      r[i].id == todos[i].id && r[i].title == todos[i].title && r[i].desc == todos[i].desc
    ensures forall i :: 0 <= i < |r| && todos[i].id == id ==> r[i].completed == !todos[i].completed
    ensures forall i :: 0 <= i < |r| && todos[i].id != id ==> r[i] == todos[i]
  {
    Map((t: Todo) => if t.id == id then t.(completed := !t.completed) else t, todos)
  }

  /** `todos.filter(todo => todo.id !== id)`: every todo carrying `id` is gone,
      the others stay in their original relative order, and an absent id
      leaves the list as it was. */
  function RemoveId(todos: seq<Todo>, id: int): (r: seq<Todo>)
    ensures IsSubsequence(r, todos)
    ensures !HasId(r, id)
    ensures forall t :: t in r <==> t in todos && t.id != id
    ensures forall t :: multiset(r)[t] == if t.id != id then multiset(todos)[t] else 0
    ensures !HasId(todos, id) ==> r == todos
  {
    var r := Filter((t: Todo) => t.id != id, todos);
    if !HasId(todos, id) then
      FilterKeepsAll((t: Todo) => t.id != id, todos);
      r
    else r
  }

  /** `filteredTodos`: the whole list under `All`; under `Completed` the
      order-preserving subsequence of completed todos, with no completed todo
      missing (each with its full multiplicity). */
  function Project(todos: seq<Todo>, mode: FilterMode): (r: seq<Todo>)
    ensures mode == All ==> r == todos
    ensures mode == Completed ==> IsSubsequence(r, todos)
    ensures mode == Completed ==> forall i :: 0 <= i < |r| ==> r[i].completed
    ensures mode == Completed ==> forall t :: t in todos && t.completed ==> t in r
    ensures mode == Completed ==>
      forall t :: multiset(r)[t] == if t.completed then multiset(todos)[t] else 0
  {
    if mode == All then todos else Filter((t: Todo) => t.completed, todos)
  }

  /* ---------------- Properties relating several operations ---------------- */

  /** Toggling the same id twice restores the original list. */
  lemma ToggleInvolution(todos: seq<Todo>, id: int)
    ensures ToggleWhere(ToggleWhere(todos, id), id) == todos
  {
    var r := ToggleWhere(ToggleWhere(todos, id), id);
    assert |r| == |todos|;
    forall i | 0 <= i < |todos| ensures r[i] == todos[i] {
    }
  }

  /** Deleting twice is deleting once. */
  lemma RemoveIdempotent(todos: seq<Todo>, id: int)
    ensures RemoveId(RemoveId(todos, id), id) == RemoveId(todos, id)
  {
    FilterIdempotent((t: Todo) => t.id != id, todos);
  }

  /** Committing an edit to an id keeps an id-unique list id-unique. */
  lemma UpdateKeepsUnique(todos: seq<Todo>, id: int, title: string, desc: string)
    requires UniqueIds(todos)
    ensures UniqueIds(UpdateWhere(todos, id, title, desc))
  {
  }

  /** Toggling keeps an id-unique list id-unique. */
  lemma ToggleKeepsUnique(todos: seq<Todo>, id: int)
    requires UniqueIds(todos)
    ensures UniqueIds(ToggleWhere(todos, id))
  {
  }

  /** Deleting keeps an id-unique list id-unique. */
  lemma RemoveKeepsUnique(todos: seq<Todo>, id: int)
    requires UniqueIds(todos)
    ensures UniqueIds(RemoveId(todos, id))
  {
    SubsequenceKeepsUnique(RemoveId(todos, id), todos);
  }

  /** Deleting an id after editing (or toggling) it gives the same list as
      deleting it straight away: neither leaves a trace of that id. */
  lemma {:induction false} RemoveAfterUpdate(todos: seq<Todo>, id: int, title: string, desc: string)
    ensures RemoveId(UpdateWhere(todos, id, title, desc), id) == RemoveId(todos, id)
  {
    if todos != [] {
      var u := UpdateWhere(todos, id, title, desc);
      var rest := todos[1..];
      RemoveAfterUpdate(rest, id, title, desc);
      assert todos == [todos[0]] + rest;
      assert u == [u[0]] + UpdateWhere(rest, id, title, desc);
      FilterConcat((t: Todo) => t.id != id, [u[0]], UpdateWhere(rest, id, title, desc));
      FilterConcat((t: Todo) => t.id != id, [todos[0]], rest);
    }
  }

  /** See RemoveAfterUpdate. */
  lemma {:induction false} RemoveAfterToggle(todos: seq<Todo>, id: int)
    ensures RemoveId(ToggleWhere(todos, id), id) == RemoveId(todos, id)
  {
    if todos != [] {
      var u := ToggleWhere(todos, id);
      var rest := todos[1..];
      RemoveAfterToggle(rest, id);
      assert todos == [todos[0]] + rest;
      assert u == [u[0]] + ToggleWhere(rest, id);
      FilterConcat((t: Todo) => t.id != id, [u[0]], ToggleWhere(rest, id));
      FilterConcat((t: Todo) => t.id != id, [todos[0]], rest);
    }
  }

  /** Appending a todo and then filtering the view shows the old view plus the
      new todo when it qualifies: order of insertion is the order of display. */
  lemma ProjectAppend(todos: seq<Todo>, t: Todo, mode: FilterMode)
    ensures Project(todos + [t], mode) ==
            Project(todos, mode) + (if mode == All || t.completed then [t] else [])
  {
    if mode == Completed {
      FilterConcat((x: Todo) => x.completed, todos, [t]);
      assert [t][1..] == [];
    }
  }

  /* ---------------- Colliding ids: the list as the code leaves it ---------------- */

  /** How many todos in the list carry `id`. */
  function CountId(todos: seq<Todo>, id: int): nat
  {
    if todos == [] then 0 else (if todos[0].id == id then 1 else 0) + CountId(todos[1..], id)
  }

  /** A delete shortens the list by exactly the number of todos carrying the id. */
  lemma {:induction false} RemoveIdLength(todos: seq<Todo>, id: int)
    ensures |RemoveId(todos, id)| == |todos| - CountId(todos, id)
  {
    if todos != [] {
      RemoveIdLength(todos[1..], id);
      assert todos == [todos[0]] + todos[1..];
      FilterConcat((t: Todo) => t.id != id, [todos[0]], todos[1..]);
    }
  }

  /** Two positions sharing an id make that id occur at least twice. */
  lemma {:induction false} CollisionCountsTwice(todos: seq<Todo>, i: nat, j: nat)
    requires i < j < |todos| && todos[i].id == todos[j].id
    ensures CountId(todos, todos[i].id) >= 2
  {
    if i == 0 {
      CountIdPositive(todos[1..], j - 1, todos[0].id);
    } else {
      CollisionCountsTwice(todos[1..], i - 1, j - 1);
    }
  }

  /** A position carrying the id makes its count positive. */
  lemma {:induction false} CountIdPositive(todos: seq<Todo>, j: nat, id: int)
    requires j < |todos| && todos[j].id == id
    ensures CountId(todos, id) >= 1
  {
    if j > 0 {
      CountIdPositive(todos[1..], j - 1, id);
    }
  }

  /** When two todos share an id, a delete of that id removes both of them
      (not only one): neither remains and the list loses at least two. */
  lemma DeleteRemovesEveryCollidingTodo(todos: seq<Todo>, i: nat, j: nat)
    requires i < j < |todos| && todos[i].id == todos[j].id
    ensures todos[i] !in RemoveId(todos, todos[i].id) && todos[j] !in RemoveId(todos, todos[i].id)
    ensures |RemoveId(todos, todos[i].id)| <= |todos| - 2
  {
    RemoveIdLength(todos, todos[i].id);
    CollisionCountsTwice(todos, i, j);
  }

  /** When two todos share an id, an edit commit to that id renames both of
      them, keeping each one's position and completion flag. */
  lemma EditRenamesEveryCollidingTodo(todos: seq<Todo>, i: nat, j: nat, title: string, desc: string)
    requires i < j < |todos| && todos[i].id == todos[j].id
    ensures var r := UpdateWhere(todos, todos[i].id, title, desc);
      r[i] == todos[i].(title := title, desc := desc) && r[j] == todos[j].(title := title, desc := desc)
  {
  }
}
