/**
 * The in-memory todo service (src/main.rs): a vector of todos and the four
 * request handlers that read and edit it. Each handler runs as one
 * sequential step on the store; the mutex around it is not modelled.
 */
module TodoServer {
  import opened Wrappers
  import opened Ints

  datatype Todo = Todo(id: u64, text: string, completed: bool)

  /** The query parameters of the list handler. */
  datatype ListOptions = ListOptions(offset: Option<usize>, limit: Option<usize>)

  /** The HTTP status codes the handlers answer with. */
  const OK: int := 200
  const CREATED: int := 201
  const NO_CONTENT: int := 204
  const BAD_REQUEST: int := 400
  const NOT_FOUND: int := 404

  function Min(a: int, b: int): int { if a <= b then a else b }
  function Max(a: int, b: int): int { if a <= b then b else a }

  // ---------------------------------------------------------------------
  // Functions over the stored vector

  predicate HasId(todos: seq<Todo>, id: u64) {
    exists i | 0 <= i < |todos| :: todos[i].id == id
  }

  /** No two stored todos share an id. */
  predicate UniqueIds(todos: seq<Todo>) {
    forall i, j | 0 <= i < j < |todos| :: todos[i].id != todos[j].id
  }

  /** The index of the first todo with the id, in vector order. */
  function FirstIndex(todos: seq<Todo>, id: u64): (r: Option<nat>)
    ensures r.None? <==> !HasId(todos, id)
    ensures r.Some? ==> r.value < |todos| && todos[r.value].id == id
    ensures r.Some? ==> forall i | 0 <= i < r.value :: todos[i].id != id
  {
    if todos == [] then None
    else if todos[0].id == id then Some(0)
    else match FirstIndex(todos[1..], id)
      case None => None
      case Some(k) => Some(k + 1)
  }

  /** What `retain(|todo| todo.id != id)` leaves. */
  function Without(todos: seq<Todo>, id: u64): (r: seq<Todo>)
    ensures |r| <= |todos|
    ensures forall i | 0 <= i < |r| :: r[i].id != id
  {
    if todos == [] then []
    else if todos[0].id == id then Without(todos[1..], id)
    else [todos[0]] + Without(todos[1..], id)
  }

  /** `iter().skip(n)`. */
  function Skip(todos: seq<Todo>, n: nat): (r: seq<Todo>)
    ensures |r| == Max(0, |todos| - n)
    ensures forall i | 0 <= i < |r| :: r[i] == todos[n + i]
  {
    if n <= |todos| then todos[n..] else []
  }

  /** `take(n)`. */
  function Take(todos: seq<Todo>, n: nat): (r: seq<Todo>)
    ensures |r| == Min(n, |todos|)
    ensures forall i | 0 <= i < |r| :: r[i] == todos[i]
  {
    if n <= |todos| then todos[..n] else todos
  }

  /**
   * `list_todos`: skip `offset` (default 0), then take at most `limit`
   * (default `usize::MAX`). The result is the contiguous run of stored todos
   * starting at the offset, in stored order.
   */
  function ListTodos(opts: ListOptions, todos: seq<Todo>): (page: seq<Todo>)
    ensures |page| == Min(opts.limit.GetOr(USIZE_MAX) as int,
                          Max(0, |todos| - opts.offset.GetOr(0) as int))
    ensures forall i | 0 <= i < |page| :: page[i] == todos[opts.offset.GetOr(0) as int + i]
  {
    Take(Skip(todos, opts.offset.GetOr(0) as nat), opts.limit.GetOr(USIZE_MAX) as nat)
  }

  /** With neither option given, a vector of at most `usize::MAX` todos is listed whole. */
  lemma ListDefaultsToAll(todos: seq<Todo>)
    requires |todos| <= USIZE_MAX as int
    ensures ListTodos(ListOptions(None, None), todos) == todos
  {
  }

  // ---------------------------------------------------------------------
  // Lemmas about what deleting leaves

  /** Deleting keeps exactly the todos with other ids. */
  lemma {:induction false} WithoutMembers(todos: seq<Todo>, id: u64, t: Todo)
    ensures t in Without(todos, id) <==> t in todos && t.id != id
  {
    if todos != [] {
      WithoutMembers(todos[1..], id, t);
      assert todos == [todos[0]] + todos[1..];
    }
  }

  /** Deleting works piece by piece, so the kept todos stay in their order. */
  lemma {:induction false} WithoutConcat(a: seq<Todo>, b: seq<Todo>, id: u64)
    ensures Without(a + b, id) == Without(a, id) + Without(b, id)
  {
    if a == [] {
      assert a + b == b;
    } else {
      assert (a + b)[1..] == a[1..] + b;
      WithoutConcat(a[1..], b, id);
    }
  }

  /** The vector gets shorter exactly when the id was present, and is unchanged otherwise. */
  lemma {:induction false} WithoutLength(todos: seq<Todo>, id: u64)
    ensures |Without(todos, id)| <= |todos|
    ensures |Without(todos, id)| < |todos| <==> HasId(todos, id)
    ensures !HasId(todos, id) ==> Without(todos, id) == todos
  {
    if todos != [] {
      WithoutLength(todos[1..], id);
      assert HasId(todos, id) <==> todos[0].id == id || HasId(todos[1..], id) by {
        if HasId(todos[1..], id) {
          var i :| 0 <= i < |todos[1..]| && todos[1..][i].id == id;
          assert todos[i + 1].id == id;
        }
        if HasId(todos, id) && todos[0].id != id {
          var i :| 0 <= i < |todos| && todos[i].id == id;
          assert todos[1..][i - 1].id == id;
        }
      }
    }
  }

  /** Deleting keeps the ids distinct. */
  lemma {:induction false} WithoutKeepsUnique(todos: seq<Todo>, id: u64)
    requires UniqueIds(todos)
    ensures UniqueIds(Without(todos, id))
  {
    if todos != [] {
      var rest := todos[1..];
      assert UniqueIds(rest) by {
        forall i, j | 0 <= i < j < |rest| ensures rest[i].id != rest[j].id {
          assert rest[i] == todos[i + 1] && rest[j] == todos[j + 1];
        }
      }
      WithoutKeepsUnique(rest, id);
      if todos[0].id != id {
        var w := Without(rest, id);
        forall k | 0 <= k < |w| ensures w[k].id != todos[0].id {
          assert w[k] in w;
          WithoutMembers(rest, id, w[k]);
          var m :| 0 <= m < |rest| && rest[m] == w[k];
          assert rest[m] == todos[m + 1];
        }
        UniqueCons(todos[0], w);
      }
    }
  }

  /** Adding a todo in front keeps the ids distinct when its id is new. */
  lemma UniqueCons(t: Todo, todos: seq<Todo>)
    requires UniqueIds(todos)
    requires forall k | 0 <= k < |todos| :: todos[k].id != t.id
    ensures UniqueIds([t] + todos)
  {
    var s := [t] + todos;
    forall i, j | 0 <= i < j < |s| ensures s[i].id != s[j].id {
      assert s[j] == todos[j - 1];
      if i > 0 { assert s[i] == todos[i - 1]; }
    }
  }

  /** Appending a todo keeps the ids distinct when its id is new. */
  lemma UniqueAppend(todos: seq<Todo>, t: Todo)
    requires UniqueIds(todos) && !HasId(todos, t.id)
    ensures UniqueIds(todos + [t])
  {
  }

  /** Replacing an entry by one with the same id keeps the ids distinct. */
  lemma UpdateSameIdKeepsUnique(todos: seq<Todo>, k: nat, update: Todo)
    requires UniqueIds(todos) && k < |todos| && update.id == todos[k].id
    ensures UniqueIds(todos[k := update])
  {
  }

  /** A body whose id differs from the path id can duplicate an id. */
  lemma UpdateCanDuplicateIds()
    ensures var todos := [Todo(1, "a", false), Todo(2, "b", false)];
            UniqueIds(todos) && !UniqueIds(todos[FirstIndex(todos, 1).value := Todo(2, "c", true)])
  {
    var todos := [Todo(1, "a", false), Todo(2, "b", false)];
    assert FirstIndex(todos, 1) == Some(0);
    var updated := todos[0 := Todo(2, "c", true)];
    assert updated[0].id == updated[1].id;
  }

  // ---------------------------------------------------------------------
  // The store and its handlers

  /** `Db`: the shared vector of todos, owned here by one object. */
  class Db {
    var todos: seq<Todo>

    /** `blank_db`: an empty store. */
    constructor ()
      ensures todos == []
    {
      todos := [];
    }

    /** `list_todos`: the requested window; the store is only read. */
    method List(opts: ListOptions) returns (page: seq<Todo>)
      ensures page == ListTodos(opts, todos)
    {
      page := ListTodos(opts, todos);
    }

    /**
     * `create_todo`: 400 and no change when the id is taken, otherwise the
     * todo is appended and the answer is 201.
     */
    method Create(create: Todo) returns (status: int)
      modifies this
      ensures status == BAD_REQUEST || status == CREATED
      ensures status == BAD_REQUEST <==> HasId(old(todos), create.id)
      ensures status == BAD_REQUEST ==> todos == old(todos)
      ensures status == CREATED ==> todos == old(todos) + [create]
      ensures UniqueIds(old(todos)) ==> UniqueIds(todos)
    {
      var i := 0;
      while i < |todos|
        invariant 0 <= i <= |todos|
        invariant forall j | 0 <= j < i :: todos[j].id != create.id
      {
        if todos[i].id == create.id {
          return BAD_REQUEST;
        }
        i := i + 1;
      }
      if UniqueIds(todos) {
        UniqueAppend(todos, create);
      }
      todos := todos + [create];
      status := CREATED;
    }

    /**
     * `update_todo`: the first todo with the path id (in vector order) is
     * replaced by the whole body, whose own id may differ, and the answer is
     * 200; with no such todo the answer is 404 and nothing changes.
     */
    method Update(id: u64, update: Todo) returns (status: int)
      modifies this
      ensures status == OK || status == NOT_FOUND
      ensures status == NOT_FOUND <==> !HasId(old(todos), id)
      ensures status == NOT_FOUND ==> todos == old(todos)
      ensures status == OK ==> todos == old(todos)[FirstIndex(old(todos), id).value := update]
    {
      var i := 0;
      while i < |todos|
        invariant 0 <= i <= |todos|
        invariant todos == old(todos)
        invariant forall j | 0 <= j < i :: todos[j].id != id
      {
        if todos[i].id == id {
          assert FirstIndex(todos, id) == Some(i);
          todos := todos[i := update];
          return OK;
        }
        i := i + 1;
      }
      status := NOT_FOUND;
    }

    /**
     * `delete_todo`: every todo with the id is removed; the answer is 204
     * when the vector got shorter and 404 otherwise.
     */
    method Delete(id: u64) returns (status: int)
      modifies this
      ensures todos == Without(old(todos), id)
      ensures status == NO_CONTENT || status == NOT_FOUND
      ensures status == NO_CONTENT <==> |todos| != |old(todos)|
      ensures status == NOT_FOUND <==> !HasId(old(todos), id)
      ensures status == NOT_FOUND ==> todos == old(todos)
      ensures UniqueIds(old(todos)) ==> UniqueIds(todos)
    {
      var len := |todos|;
      WithoutLength(todos, id);
      if UniqueIds(todos) {
        WithoutKeepsUnique(todos, id);
      }
      todos := Without(todos, id);
      var deleted := |todos| != len;
      if deleted {
        status := NO_CONTENT;
      } else {
        status := NOT_FOUND;
      }
    }
  }

  /** `test_post`: creating in a blank store answers 201. */
  method TestPost() returns (status: int)
    ensures status == CREATED
  {
    var db := new Db();
    status := db.Create(Todo1());
  }

  /** `test_post_confict`: creating an id already stored answers 400. */
  method TestPostConflict() returns (status: int)
    ensures status == BAD_REQUEST
  {
    var db := new Db();
    db.todos := db.todos + [Todo1()];
    assert db.todos[0].id == 1;
    status := db.Create(Todo1());
  }

  /** `test_put_unknown`: updating in a blank store answers 404. */
  method TestPutUnknown() returns (status: int)
    ensures status == NOT_FOUND
  {
    var db := new Db();
    status := db.Update(1, Todo1());
  }

  function Todo1(): Todo {
    Todo(1, "test 1", false)
  }
}
