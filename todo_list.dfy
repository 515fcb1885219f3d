/**
 * The to-do records and the three list transformations the controller's
 * handlers build their next list with: the `map` that commits an edit, the
 * `map` that toggles completion and the `filter` that deletes. Each builds a
 * new list and leaves its argument alone, so each is a function here.
 */
module TodoList {

  /** One to-do record. `id` is a number the source takes from the clock. */
  datatype Todo = Todo(id: int, text: string, completed: bool)

  /** Some record of `todos` carries `id`. */
  predicate HasId(todos: seq<Todo>, id: int) {
    exists i :: 0 <= i < |todos| && todos[i].id == id
  }

  /** No two records share an id (the list is rendered with `id` as key). */
  ghost predicate UniqueIds(todos: seq<Todo>) {
    forall i, j :: 0 <= i < j < |todos| ==> todos[i].id != todos[j].id
  }

  /** Edit commit: every record whose id is `id` gets `text`; ids,
      completion flags, order and length are untouched. */
  function SetText(todos: seq<Todo>, id: int, text: string): (r: seq<Todo>)
    ensures |r| == |todos|
    ensures forall i :: 0 <= i < |r| ==>
      r[i].id == todos[i].id && r[i].completed == todos[i].completed
    ensures forall i :: 0 <= i < |r| ==>
      r[i].text == if todos[i].id == id then text else todos[i].text
  {
    seq(|todos|, i requires 0 <= i < |todos| =>
      if todos[i].id == id then todos[i].(text := text) else todos[i])
  }

  /** Toggle: records whose id is `id` have `completed` flipped; ids, texts,
      order and length are untouched. */
  function Toggle(todos: seq<Todo>, id: int): (r: seq<Todo>)
    ensures |r| == |todos|
    ensures forall i :: 0 <= i < |r| ==>
      r[i].id == todos[i].id && r[i].text == todos[i].text
    ensures forall i :: 0 <= i < |r| ==>
      r[i].completed == (todos[i].completed != (todos[i].id == id))
  {
    seq(|todos|, i requires 0 <= i < |todos| =>
      if todos[i].id == id then todos[i].(completed := !todos[i].completed) else todos[i])
  }

  /** Delete: keeps exactly the records whose id differs from `id`. */
  function Remove(todos: seq<Todo>, id: int): (r: seq<Todo>)
    ensures |r| <= |todos|
    ensures forall t :: t in r <==> t in todos && t.id != id
    ensures !HasId(r, id)
  {
    if todos == [] then []
    else if todos[0].id == id then Remove(todos[1..], id)
    else [todos[0]] + Remove(todos[1..], id)
  }

  // ---- Add ----

  /** Appending a record with a fresh id keeps the ids distinct, keeps the
      earlier records where they were and puts the new one last. */
  lemma AppendFreshKeepsUniqueIds(todos: seq<Todo>, id: int, text: string)
    requires UniqueIds(todos) && !HasId(todos, id)
    ensures var r := todos + [Todo(id, text, false)];
      |r| == |todos| + 1 && r[..|todos|] == todos && r[|todos|] == Todo(id, text, false) &&
      UniqueIds(r)
  {
  }

  // ---- Edit commit ----

  /** Editing an id that is no longer in the list changes nothing. */
  lemma SetTextAbsent(todos: seq<Todo>, id: int, text: string)
    requires !HasId(todos, id)
    ensures SetText(todos, id, text) == todos
  {
  }

  /** With distinct ids, an edit commit rewrites the text of exactly the one
      record at position `k`. */
  lemma SetTextAt(todos: seq<Todo>, k: int, text: string)
    requires UniqueIds(todos) && 0 <= k < |todos|
    ensures SetText(todos, todos[k].id, text) == todos[k := todos[k].(text := text)]
  {
  }

  /** An edit commit keeps the ids distinct. */
  lemma SetTextKeepsUniqueIds(todos: seq<Todo>, id: int, text: string)
    requires UniqueIds(todos)
    ensures UniqueIds(SetText(todos, id, text))
  {
  }

  // ---- Toggle ----

  /** Toggling the same id twice restores the list. */
  lemma ToggleTwice(todos: seq<Todo>, id: int)
    ensures Toggle(Toggle(todos, id), id) == todos
  {
  }

  /** Toggling an unknown id is a no-op. */
  lemma ToggleAbsent(todos: seq<Todo>, id: int)
    requires !HasId(todos, id)
    ensures Toggle(todos, id) == todos
  {
  }

  /** With distinct ids, a toggle flips exactly the one record at `k`. */
  lemma ToggleAt(todos: seq<Todo>, k: int)
    requires UniqueIds(todos) && 0 <= k < |todos|
    ensures Toggle(todos, todos[k].id) ==
      todos[k := todos[k].(completed := !todos[k].completed)]
  {
  }

  /** A toggle keeps the ids distinct. */
  lemma ToggleKeepsUniqueIds(todos: seq<Todo>, id: int)
    requires UniqueIds(todos)
    ensures UniqueIds(Toggle(todos, id))
  {
  }

  // ---- Delete ----

  /** Deleting an unknown id leaves the list unchanged. */
  lemma {:induction false} RemoveAbsent(todos: seq<Todo>, id: int)
    requires !HasId(todos, id)
    ensures Remove(todos, id) == todos
  {
    if todos != [] {
      assert todos[0].id != id;
      assert !HasId(todos[1..], id) by {
        forall i | 0 <= i < |todos[1..]| ensures todos[1..][i].id != id {
          assert todos[1..][i] == todos[i + 1];
        }
      }
      RemoveAbsent(todos[1..], id);
      assert todos == [todos[0]] + todos[1..];
    }
  }

  /** Delete works piecewise: survivors keep their relative order. */
  lemma {:induction false} RemoveAppend(a: seq<Todo>, b: seq<Todo>, id: int)
    ensures Remove(a + b, id) == Remove(a, id) + Remove(b, id)
  {
    if a != [] {
      var c := a + b;
      assert c[0] == a[0];
      assert c[1..] == a[1..] + b;
      RemoveAppend(a[1..], b, id);
      if a[0].id == id {
        assert Remove(c, id) == Remove(a[1..] + b, id);
        assert Remove(a, id) == Remove(a[1..], id);
      } else {
        assert Remove(c, id) == [a[0]] + Remove(a[1..] + b, id);
        assert Remove(a, id) == [a[0]] + Remove(a[1..], id);
      }
    } else {
      assert a + b == b;
    }
  }

  /** With distinct ids, deleting the id of the record at `k` removes exactly
      that record, so the length drops by one. */
  lemma RemoveAt(todos: seq<Todo>, k: int)
    requires UniqueIds(todos) && 0 <= k < |todos|
    ensures Remove(todos, todos[k].id) == todos[..k] + todos[k + 1..]
    ensures |Remove(todos, todos[k].id)| == |todos| - 1
  {
    var id := todos[k].id;
    var pre, rest := todos[..k], todos[k..];
    var post := rest[1..];
    assert todos == pre + rest;
    assert post == todos[k + 1..];
    PrefixLacksId(todos, k);
    SuffixLacksId(todos, k);
    RemoveAppend(pre, rest, id);
    RemoveAbsent(pre, id);
    assert Remove(rest, id) == Remove(post, id);
    RemoveAbsent(post, id);
  }

  /** With distinct ids, no record before position `k` carries its id. */
  lemma PrefixLacksId(todos: seq<Todo>, k: int)
    requires UniqueIds(todos) && 0 <= k < |todos|
    ensures !HasId(todos[..k], todos[k].id)
  {
  }

  /** With distinct ids, no record after position `k` carries its id. */
  lemma SuffixLacksId(todos: seq<Todo>, k: int)
    requires UniqueIds(todos) && 0 <= k < |todos|
    ensures !HasId(todos[k + 1..], todos[k].id)
  {
  }

  /** A delete keeps the ids distinct. */
  lemma {:induction false} RemoveKeepsUniqueIds(todos: seq<Todo>, id: int)
    requires UniqueIds(todos)
    ensures UniqueIds(Remove(todos, id))
  {
    if todos != [] {
      var head, tail := todos[0], todos[1..];
      TailKeepsUniqueIds(todos);
      RemoveKeepsUniqueIds(tail, id);
      if head.id != id {
        assert !HasId(tail, head.id) by {
          forall i | 0 <= i < |tail| ensures tail[i].id != head.id {
            assert tail[i] == todos[i + 1];
          }
        }
        RemoveKeepsAbsent(tail, id, head.id);
        ConsKeepsUniqueIds(head, Remove(tail, id));
      }
    }
  }

  /** Dropping the first record keeps the ids distinct. */
  lemma TailKeepsUniqueIds(todos: seq<Todo>)
    requires UniqueIds(todos) && todos != []
    ensures UniqueIds(todos[1..])
  {
  }

  /** A delete never introduces an id. */
  lemma RemoveKeepsAbsent(todos: seq<Todo>, id: int, other: int)
    requires !HasId(todos, other)
    ensures !HasId(Remove(todos, id), other)
  {
  }

  /** Putting a record with a new id in front keeps the ids distinct. */
  lemma ConsKeepsUniqueIds(t: Todo, rest: seq<Todo>)
    requires UniqueIds(rest) && !HasId(rest, t.id)
    ensures UniqueIds([t] + rest)
  {
  }

  // ---- Edit target deleted before commit ----

  /** Committing an edit whose target was deleted leaves the list as the
      delete made it. */
  lemma EditAfterRemove(todos: seq<Todo>, id: int, text: string)
    ensures SetText(Remove(todos, id), id, text) == Remove(todos, id)
  {
  }
}
