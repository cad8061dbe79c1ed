/** The command-line todo list (todo.py). Each command loads the whole list
    from the JSON file, changes it in memory and writes it back; the file is
    modelled by the `todos` field of `TodoFile`, and `saves` counts the
    writes. Every command is specified by a pure function that gives the
    list left in the file, the message shown and whether the file was
    written; the lemmas below are about those functions. The property they
    protect is that the ids of the stored list are exactly 1..N in list
    order. */
module TodoCli {
  import opened Basics

  /** One stored record: `{id, task, priority, completed, created_at, completed_at}`. */
  datatype Todo = Todo(
    id: int,
    task: string,
    priority: string,
    completed: bool,
    createdAt: Timestamp,
    completedAt: Option<Timestamp>)

  /** What a command reports (the line it prints). */
  datatype Outcome =
    | Added(todo: Todo)
    | Completed(task: string)
    | AlreadyCompleted(task: string)
    | Deleted(removed: Todo)
    | Cleared(count: nat)
    | NothingToClear
    | NotFound(id: int)

  function Ids(s: seq<Todo>): (r: seq<int>)
    ensures |r| == |s|
    ensures forall k :: 0 <= k < |s| ==> r[k] == s[k].id
  {
    seq(|s|, k requires 0 <= k < |s| => s[k].id)
  }

  /** The ids are exactly 1, 2, ..., N in list order. */
  predicate IdsSequential(s: seq<Todo>)
  {
    forall k :: 0 <= k < |s| ==> s[k].id == k + 1
  }

  /** The list after `for j, t in enumerate(todos): t["id"] = j + 1`. */
  function Renumbered(s: seq<Todo>): (r: seq<Todo>)
    ensures |r| == |s| && IdsSequential(r)
    ensures forall k :: 0 <= k < |s| ==> r[k] == s[k].(id := k + 1)
  {
    seq(|s|, k requires 0 <= k < |s| => s[k].(id := k + 1))
  }

  /** `[t for t in todos if not t["completed"]]` */
  function Active(s: seq<Todo>): (r: seq<Todo>)
    ensures |r| <= |s|
    ensures forall t :: t in r <==> t in s && !t.completed
  {
    if s == [] then []
    else if s[0].completed then Active(s[1..])
    else [s[0]] + Active(s[1..])
  }

  /** `len([t for t in todos if t["completed"]])` */
  function CountCompleted(s: seq<Todo>): nat
  {
    if s == [] then 0
    else (if s[0].completed then 1 else 0) + CountCompleted(s[1..])
  }

  // ---------------------------------------------------------------------
  // Facts about the filters

  /** Every record is either shown as active or counted as completed. */
  lemma {:induction false} ActiveCount(s: seq<Todo>)
    ensures |Active(s)| + CountCompleted(s) == |s|
  {
    if s != [] {
      ActiveCount(s[1..]);
    }
  }

  /** The filter keeps the records' relative order: it distributes over concatenation. */
  lemma {:induction false} ActiveAppend(a: seq<Todo>, b: seq<Todo>)
    ensures Active(a + b) == Active(a) + Active(b)
  {
    if a != [] {
      assert (a + b)[0] == a[0];
      assert (a + b)[1..] == a[1..] + b;
      ActiveAppend(a[1..], b);
    } else {
      assert a + b == b;
    }
  }

  /** With nothing completed, the filter keeps the whole list. */
  lemma {:induction false} ActiveOfAllPending(s: seq<Todo>)
    requires CountCompleted(s) == 0
    ensures Active(s) == s
  {
    if s != [] {
      ActiveOfAllPending(s[1..]);
    }
  }

  // ---------------------------------------------------------------------
  // list_todos: what is shown and the progress line

  datatype ListView =
    | NoTodos                                                   // "No todos yet!"
    | AllDone                                                   // "All tasks completed!"
    | Listing(shown: seq<Todo>, completedCount: nat, total: nat)

  function ListTodos(s: seq<Todo>, showAll: bool): (v: ListView)
    ensures v.NoTodos? <==> s == []
    ensures v.AllDone? <==> s != [] && !showAll && forall t :: t in s ==> t.completed
    ensures v.Listing? ==> v.shown != [] && v.total == |s|
    ensures v.Listing? ==> v.completedCount + |Active(s)| == v.total
    ensures v.Listing? ==> forall t :: t in v.shown <==> t in s && (showAll || !t.completed)
  {
    ActiveCount(s);
    if s == [] then NoTodos
    else
      var shown := if showAll then s else Active(s);
      assert shown != [] ==> shown[0] in shown;
      if shown == [] then AllDone
      else Listing(shown, CountCompleted(s), |s|)
  }

  /** `list all` shows the stored list itself, in order; `list` shows the active records in order. */
  lemma ListShowsInOrder(s: seq<Todo>, showAll: bool)
    requires ListTodos(s, showAll).Listing?
    ensures ListTodos(s, showAll).shown == if showAll then s else Active(s)
    ensures ListTodos(s, showAll).completedCount <= |s|
  {
  }

  // ---------------------------------------------------------------------
  // The four commands that change the list, as functions of the stored list

  /** `add_todo(task, priority)` */
  function Adding(s: seq<Todo>, task: string, priority: string, now: Timestamp): (r: Step<Todo, Outcome>)
    ensures r.saved && |r.todos| == |s| + 1 && r.todos[..|s|] == s
  {
    var todo := Todo(|s| + 1, task, priority, false, now, None);
    Step(s + [todo], Added(todo), true)
  }

  /** `complete_todo(todo_id)` */
  function Completing(s: seq<Todo>, id: int, now: Timestamp): (r: Step<Todo, Outcome>)
    ensures Ids(r.todos) == Ids(s)
    ensures r.saved <==> r.outcome.Completed?
    ensures !r.saved ==> r.todos == s
  {
    match IndexOf(Ids(s), id)
    case None => Step(s, NotFound(id), false)
    case Some(i) =>
      if s[i].completed then Step(s, AlreadyCompleted(s[i].task), false)
      else Step(s[i := s[i].(completed := true, completedAt := Some(now))], Completed(s[i].task), true)
  }

  /** `delete_todo(todo_id)` */
  function Deleting(s: seq<Todo>, id: int): (r: Step<Todo, Outcome>)
    ensures r.saved <==> id in Ids(s)
    ensures r.saved ==> |r.todos| == |s| - 1 && IdsSequential(r.todos)
    ensures !r.saved ==> r.todos == s && r.outcome == NotFound(id)
  {
    match IndexOf(Ids(s), id)
    case None => Step(s, NotFound(id), false)
    case Some(i) => Step(Renumbered(RemoveAt(s, i)), Deleted(s[i]), true)
  }

  /** `clear_completed()` */
  function Clearing(s: seq<Todo>): (r: Step<Todo, Outcome>)
    ensures r.saved <==> CountCompleted(s) > 0
    ensures r.saved ==> r.outcome == Cleared(CountCompleted(s)) && IdsSequential(r.todos)
    ensures |r.todos| == |s| - CountCompleted(s)
    ensures !r.saved ==> r.todos == s && r.outcome == NothingToClear
  {
    ActiveCount(s);
    var active := Active(s);
    var removedCount := |s| - |active|;
    if removedCount == 0 then Step(s, NothingToClear, false)
    else Step(Renumbered(active), Cleared(removedCount), true)
  }

  // ---------------------------------------------------------------------
  // Properties of the commands

  /** The id invariant: ids 1..N in order before any command are 1..N' after it. */
  lemma CommandsKeepIdsSequential(s: seq<Todo>, task: string, priority: string, id: int, now: Timestamp)
    requires IdsSequential(s)
    ensures IdsSequential(Adding(s, task, priority, now).todos)
    ensures IdsSequential(Completing(s, id, now).todos)
    ensures IdsSequential(Deleting(s, id).todos)
    ensures IdsSequential(Clearing(s).todos)
  {
    var c := Completing(s, id, now).todos;
    assert forall k :: 0 <= k < |c| ==> c[k].id == Ids(c)[k] == Ids(s)[k];
  }

  /** Adding appends one fresh, not-completed record numbered |s| + 1 and leaves the others alone. */
  lemma AddAppendsFreshRecord(s: seq<Todo>, task: string, priority: string, now: Timestamp)
    ensures var r := Adding(s, task, priority, now);
      && r.todos == s + [r.todos[|s|]]
      && r.todos[|s|].id == |s| + 1
      && r.todos[|s|].task == task && r.todos[|s|].priority == priority
      && !r.todos[|s|].completed && r.todos[|s|].completedAt == None
      && r.todos[|s|].createdAt == now
      && r.outcome == Added(r.todos[|s|])
  {
  }

  /** Completing the first record with the id that is still open marks it done at `now`
      and changes no other record and no other field. */
  lemma CompleteMarksFirstMatch(s: seq<Todo>, id: int, now: Timestamp, i: nat)
    requires i < |s| && s[i].id == id && !s[i].completed
    requires forall k :: 0 <= k < i ==> s[k].id != id
    ensures var r := Completing(s, id, now);
      && r.saved && r.outcome == Completed(s[i].task)
      && |r.todos| == |s|
      && r.todos[i].completed && r.todos[i].completedAt == Some(now)
      && r.todos[i].(completed := false, completedAt := s[i].completedAt) == s[i]
      && forall k :: 0 <= k < |s| && k != i ==> r.todos[k] == s[k]
  {
    IndexOfIsFirst(Ids(s), id, i);
  }

  /** An already-completed record or an unknown id leaves the list as it was and nothing is written. */
  lemma CompleteWithoutEffect(s: seq<Todo>, id: int, now: Timestamp)
    requires id !in Ids(s) || s[IndexOf(Ids(s), id).value].completed
    ensures Completing(s, id, now).todos == s
    ensures !Completing(s, id, now).saved
    ensures id !in Ids(s) ==> Completing(s, id, now).outcome == NotFound(id)
  {
  }

  /** Completing twice is the same as completing once; the second attempt writes nothing. */
  lemma {:induction false} CompleteIdempotent(s: seq<Todo>, id: int, first: Timestamp, second: Timestamp)
    ensures var once := Completing(s, id, first).todos;
      Completing(once, id, second).todos == once && !Completing(once, id, second).saved
  {
    var once := Completing(s, id, first).todos;
    assert Ids(once) == Ids(s);
    match IndexOf(Ids(s), id)
    case None =>
    case Some(i) =>
      assert once[i].completed;
  }

  /** With ids 1..N, the record `done <id>` touches is the id-th one. */
  lemma CompleteOnSequentialIds(s: seq<Todo>, id: int)
    requires IdsSequential(s)
    ensures id in Ids(s) <==> 1 <= id <= |s|
    ensures 1 <= id <= |s| ==> IndexOf(Ids(s), id) == Some(id - 1)
  {
    if 1 <= id <= |s| {
      assert Ids(s)[id - 1] == id;
      IndexOfIsFirst(Ids(s), id, id - 1);
    }
  }

  /** Deleting removes the first record with the id; the survivors keep their order and every
      field except the id, and are numbered 1..N-1. */
  lemma DeleteRemovesFirstMatch(s: seq<Todo>, id: int, i: nat)
    requires i < |s| && s[i].id == id
    requires forall k :: 0 <= k < i ==> s[k].id != id
    ensures var r := Deleting(s, id);
      && r.saved && r.outcome == Deleted(s[i])
      && |r.todos| == |s| - 1
      && (forall k :: 0 <= k < i ==> r.todos[k] == s[k].(id := k + 1))
      && (forall k :: i <= k < |r.todos| ==> r.todos[k] == s[k + 1].(id := k + 1))
  {
    IndexOfIsFirst(Ids(s), id, i);
  }

  /** With ids 1..N, deleting id keeps the records before it as they are and shifts those after it down by one. */
  lemma DeleteOnSequentialIds(s: seq<Todo>, id: int)
    requires IdsSequential(s) && 1 <= id <= |s|
    ensures var r := Deleting(s, id).todos;
      && |r| == |s| - 1
      && (forall k :: 0 <= k < id - 1 ==> r[k] == s[k])
      && (forall k :: id - 1 <= k < |r| ==> r[k] == s[k + 1].(id := s[k + 1].id - 1))
  {
    CompleteOnSequentialIds(s, id);
    var r := Deleting(s, id).todos;
    assert forall k :: 0 <= k < id - 1 ==> s[k].(id := k + 1) == s[k];
  }

  /** Clearing keeps exactly the open records, in their order, renumbered 1..N, and reports how many went. */
  lemma ClearKeepsOpenRecords(s: seq<Todo>)
    requires CountCompleted(s) > 0
    ensures var r := Clearing(s);
      && r.todos == Renumbered(Active(s))
      && r.outcome == Cleared(|s| - |Active(s)|)
      && forall k :: 0 <= k < |r.todos| ==> !r.todos[k].completed
  {
    ActiveCount(s);
    var a := Active(s);
    assert forall k :: 0 <= k < |a| ==> a[k] in a;
  }

  /** Clearing with nothing completed changes nothing and writes nothing. */
  lemma ClearWithNothingCompleted(s: seq<Todo>)
    requires forall t :: t in s ==> !t.completed
    ensures Clearing(s) == Step(s, NothingToClear, false)
  {
    ActiveCount(s);
    if CountCompleted(s) > 0 {
      var a := Active(s);
      assert |a| < |s|;
      NoneCompletedWhenAllOpen(s);
    }
  }

  lemma {:induction false} NoneCompletedWhenAllOpen(s: seq<Todo>)
    requires forall t :: t in s ==> !t.completed
    ensures CountCompleted(s) == 0
  {
    if s != [] {
      assert s[0] in s;
      assert forall t :: t in s[1..] ==> t in s;
      NoneCompletedWhenAllOpen(s[1..]);
    }
  }

  // ---------------------------------------------------------------------
  // The add command's argument split (the `add` branch of main)

  /** Python's `str.isspace()`: the separators of `str.split()` and `str.rsplit()`. */
  predicate IsSpace(c: char)
  {
    || ('\t' <= c <= '\r')
    || ('\U{1C}' <= c <= '\U{1F}')
    || c == ' ' || c == '\U{85}' || c == '\U{A0}' || c == '\U{1680}'
    || ('\U{2000}' <= c <= '\U{200A}')
    || c == '\U{2028}' || c == '\U{2029}' || c == '\U{202F}' || c == '\U{205F}' || c == '\U{3000}'
  }

  /** `s.rstrip()` */
  function RStrip(s: string): (r: string)
    ensures |r| <= |s| && r == s[..|r|]
    ensures r == [] || !IsSpace(r[|r| - 1])
    ensures forall k :: |r| <= k < |s| ==> IsSpace(s[k])
  {
    if s != [] && IsSpace(s[|s| - 1]) then RStrip(s[..|s| - 1]) else s
  }

  /** Start of the run of non-separators that ends just before position k. */
  function TokenStart(t: string, k: nat): (j: nat)
    requires k <= |t|
    ensures j <= k
    ensures forall m :: j <= m < k ==> !IsSpace(t[m])
    ensures j == 0 || IsSpace(t[j - 1])
  {
    if k > 0 && !IsSpace(t[k - 1]) then TokenStart(t, k - 1) else k
  }

  /** `s.rsplit(maxsplit=1)`: the last word and, when anything but separators
      precedes it, the text before it without its trailing separators. */
  function RSplitOnce(s: string): (parts: seq<string>)
    ensures |parts| <= 2
    ensures parts == [] <==> RStrip(s) == []
  {
    var t := RStrip(s);
    if t == [] then []
    else
      var j := TokenStart(t, |t|);
      var head := RStrip(t[..j]);
      if head == [] then [t[j..]] else [head, t[j..]]
  }

  predicate IsQuote(c: char)
  {
    c == '"' || c == '\''
  }

  /** No quote character at either end. */
  predicate Unquoted(s: string)
  {
    s == [] || (!IsQuote(s[0]) && !IsQuote(s[|s| - 1]))
  }

  function LStripQuotes(s: string): (r: string)
    ensures |r| <= |s| && r == s[|s| - |r|..]
    ensures forall k :: 0 <= k < |s| - |r| ==> IsQuote(s[k])
    ensures r == [] || !IsQuote(r[0])
  {
    if s != [] && IsQuote(s[0]) then LStripQuotes(s[1..]) else s
  }

  function RStripQuotes(s: string): (r: string)
    ensures |r| <= |s| && r == s[..|r|]
    ensures forall k :: |r| <= k < |s| ==> IsQuote(s[k])
    ensures r == [] || !IsQuote(r[|r| - 1])
  {
    if s != [] && IsQuote(s[|s| - 1]) then RStripQuotes(s[..|s| - 1]) else s
  }

  /** r is s[i..i + |r|] with only quote characters cut off before and after it. */
  predicate StrippedAt(s: string, r: string, i: nat)
  {
    && i + |r| <= |s| && r == s[i..i + |r|]
    && (forall k :: 0 <= k < i ==> IsQuote(s[k]))
    && (forall k :: i + |r| <= k < |s| ==> IsQuote(s[k]))
  }

  /** `s.strip('"\'')`: drops every quote character at both ends, nothing else. */
  function StripQuotes(s: string): (r: string)
    ensures Unquoted(r)
    ensures |r| <= |s|
    ensures exists i: nat :: StrippedAt(s, r, i)
  {
    var l := LStripQuotes(s);
    var r := RStripQuotes(l);
    var i := |s| - |l|;
    assert r == s[i..i + |r|];
    assert StrippedAt(s, r, i);
    r
  }

  predicate EndsWith(s: string, suffix: string)
  {
    |suffix| <= |s| && s[|s| - |suffix|..] == suffix
  }

  /** `args.endswith((" high", " medium", " low"))` */
  predicate EndsWithPriority(args: string)
  {
    EndsWith(args, " high") || EndsWith(args, " medium") || EndsWith(args, " low")
  }

  predicate IsPriorityWord(w: string)
  {
    w == "high" || w == "medium" || w == "low"
  }

  /** `*task_parts, priority = args.rsplit(maxsplit=1)` followed by
      `task = " ".join(task_parts).strip('"\'')`; defined when `args` holds a non-separator. */
  function SplitOffLastWord(args: string): (r: (string, string))
    requires RStrip(args) != []
    ensures Unquoted(r.0)
  {
    var parts := RSplitOnce(args);
    var taskParts := parts[..|parts| - 1];
    var task := if |taskParts| == 1 then taskParts[0] else "";  // " ".join(task_parts)
    (StripQuotes(task), parts[|parts| - 1])
  }

  /** The `add` argument split: (task, priority). */
  function SplitAddArgs(args: string): (r: (string, string))
    ensures Unquoted(r.0)
    ensures !EndsWithPriority(args) ==> r.1 == "medium"
  {
    if EndsWithPriority(args) then
      assert args[|args| - 1] != ' ';
      SplitOffLastWord(args)
    else
      (StripQuotes(args), "medium")
  }

  // Facts about the split

  lemma StripQuotesKeepsUnquoted(s: string)
    requires Unquoted(s)
    ensures StripQuotes(s) == s
  {
  }

  /** The surrounding quotes of `"task"` or `'task'` are removed and nothing else. */
  lemma StripQuotesOfQuoted(q: char, t: string)
    requires IsQuote(q) && Unquoted(t)
    ensures StripQuotes([q] + t + [q]) == t
  {
    var tq := t + [q];
    assert ([q] + t + [q])[1..] == tq;
    assert LStripQuotes([q] + t + [q]) == LStripQuotes(tq);
    if t == [] {
      assert LStripQuotes(tq) == LStripQuotes([]) == [];
    } else {
      assert tq[0] == t[0];
      assert LStripQuotes(tq) == tq;
      RStripQuotesOfQuoteEnded(t, q);
    }
  }

  lemma RStripQuotesOfQuoteEnded(t: string, q: char)
    requires IsQuote(q) && Unquoted(t)
    ensures RStripQuotes(t + [q]) == t
  {
    var tq := t + [q];
    assert tq[..|tq| - 1] == t;
  }

  /** A string that ends in a non-separator is its own rstrip. */
  lemma RStripOfWordEnd(s: string)
    requires s == [] || !IsSpace(s[|s| - 1])
    ensures RStrip(s) == s
  {
  }

  /** rstrip drops a final separator. */
  lemma RStripDropsSpace(x: string)
    ensures RStrip(x + " ") == RStrip(x)
  {
    assert (x + " ")[..|x|] == x;
  }

  /** The last word starts right after the last separator. */
  lemma TokenStartAfterSpace(s: string, p: nat)
    requires p < |s| && IsSpace(s[p])
    requires forall m :: p < m < |s| ==> !IsSpace(s[m])
    ensures TokenStart(s, |s|) == p + 1
  {
  }

  /** rsplit on `x + " " + w` with a one-word `w` splits exactly at that space. */
  lemma RSplitOnceLastWord(x: string, w: string)
    requires w != [] && forall m :: 0 <= m < |w| ==> !IsSpace(w[m])
    ensures RSplitOnce(x + " " + w) == if RStrip(x) == [] then [w] else [RStrip(x), w]
  {
    var s := x + " " + w;
    WordAfterSpace(x, w);
    RStripOfWordEnd(s);
    TokenStartAfterSpace(s, |x|);
    RStripDropsSpace(x);
    RSplitOnceAt(s, |x| + 1);
  }

  /** How `x + " " + w` is laid out. */
  lemma WordAfterSpace(x: string, w: string)
    requires w != [] && forall m :: 0 <= m < |w| ==> !IsSpace(w[m])
    ensures var s := x + " " + w;
      && !IsSpace(s[|s| - 1]) && IsSpace(s[|x|])
      && (forall m :: |x| < m < |s| ==> !IsSpace(s[m]))
      && s[..|x| + 1] == x + " " && s[|x| + 1..] == w
  {
    var s := x + " " + w;
    assert forall m :: |x| < m < |s| ==> s[m] == w[m - |x| - 1];
  }

  /** rsplit of a string without trailing separators whose last word starts at j. */
  lemma RSplitOnceAt(s: string, j: nat)
    requires s != [] && RStrip(s) == s && j <= |s| && TokenStart(s, |s|) == j
    ensures RSplitOnce(s) == if RStrip(s[..j]) == [] then [s[j..]] else [RStrip(s[..j]), s[j..]]
  {
  }

  /** With a trailing priority word, the word becomes the priority and the text before it,
      without its trailing separators and surrounding quotes, the task. */
  lemma SplitAddArgsTakesLastWord(x: string, w: string)
    requires IsPriorityWord(w)
    ensures SplitAddArgs(x + " " + w) == (StripQuotes(RStrip(x)), w)
  {
    PriorityWordSuffix(x, w);
    PriorityWordIsOneWord(w);
    SplitOffWord(x, w);
  }

  lemma PriorityWordSuffix(x: string, w: string)
    requires IsPriorityWord(w)
    ensures EndsWithPriority(x + " " + w)
  {
    if w == "high" {
      assert x + " " + w == x + " high";
      EndsWithAppended(x, " high");
    } else if w == "medium" {
      assert x + " " + w == x + " medium";
      EndsWithAppended(x, " medium");
    } else {
      assert x + " " + w == x + " low";
      EndsWithAppended(x, " low");
    }
  }

  lemma PriorityWordIsOneWord(w: string)
    requires IsPriorityWord(w)
    ensures w != [] && forall m :: 0 <= m < |w| ==> !IsSpace(w[m])
  {
  }

  lemma EndsWithAppended(x: string, y: string)
    ensures EndsWith(x + y, y)
  {
    assert (x + y)[|x|..] == y;
  }

  lemma SplitOffWord(x: string, w: string)
    requires w != [] && forall m :: 0 <= m < |w| ==> !IsSpace(w[m])
    ensures RStrip(x + " " + w) != []
    ensures SplitOffLastWord(x + " " + w) == (StripQuotes(RStrip(x)), w)
  {
    RSplitOnceLastWord(x, w);
  }

  /** The usage the help text shows round-trips: `add Buy milk high` gives task "Buy milk" and priority high. */
  lemma SplitAddArgsRoundTrip(task: string, w: string)
    requires IsPriorityWord(w) && Unquoted(task)
    requires task == [] || !IsSpace(task[|task| - 1])
    ensures SplitAddArgs(task + " " + w) == (task, w)
  {
    SplitAddArgsTakesLastWord(task, w);
    assert RStrip(task) == task;
    StripQuotesKeepsUnquoted(task);
  }

  /** ... and so does the quoted form `add "Buy milk" high` (or with single quotes). */
  lemma SplitAddArgsQuotedRoundTrip(q: char, task: string, w: string)
    requires IsQuote(q) && IsPriorityWord(w) && Unquoted(task)
    ensures SplitAddArgs([q] + task + [q] + " " + w) == (task, w)
  {
    var quoted := [q] + task + [q];
    SplitAddArgsTakesLastWord(quoted, w);
    assert RStrip(quoted) == quoted;
    StripQuotesOfQuoted(q, task);
  }

  /** Without a trailing priority word the whole argument, unquoted, is the task. */
  lemma SplitAddArgsDefault(args: string)
    requires !EndsWithPriority(args) && Unquoted(args)
    ensures SplitAddArgs(args) == (args, "medium")
  {
  }

  /** Without a trailing priority word, the task is the whole argument with only its
      leading and trailing quote characters cut off, and the priority is "medium". */
  lemma SplitAddArgsDefaultStripsQuotes(args: string)
    requires !EndsWithPriority(args)
    ensures SplitAddArgs(args).1 == "medium"
    ensures Unquoted(SplitAddArgs(args).0)
    ensures exists i: nat :: StrippedAt(args, SplitAddArgs(args).0, i)
  {
  }

  /** A lone priority word is a task, not a priority. */
  lemma SplitAddArgsLoneWord()
    ensures SplitAddArgs("high") == ("high", "medium")
  {
    NotEndingWithPriority("high");
    SplitAddArgsDefault("high");
  }

  /** Quotes around a task without a priority are dropped: `add "Read a book"`. */
  lemma SplitAddArgsQuotedDefault(q: char, task: string)
    requires IsQuote(q) && Unquoted(task)
    ensures SplitAddArgs([q] + task + [q]) == (task, "medium")
  {
    var args := [q] + task + [q];
    assert args[|args| - 1] == q;
    NotEndingWithPriority(args);
    StripQuotesOfQuoted(q, task);
  }

  lemma NotEndingWithPriority(args: string)
    requires |args| < 5 || args[|args| - 1] != 'h'
    requires |args| < 4 || args[|args| - 1] != 'w'
    requires |args| < 7 || args[|args| - 1] != 'm'
    ensures !EndsWithPriority(args)
  {
  }

  // ---------------------------------------------------------------------
  // The stored list and the commands that load, change and save it

  /** `for j, t in enumerate(todos): t["id"] = j + 1` */
  method Renumber(s: seq<Todo>) returns (r: seq<Todo>)
    ensures r == Renumbered(s)
  {
    r := s;
    var j := 0;
    while j < |r|
      invariant 0 <= j <= |r| == |s|
      invariant forall k :: 0 <= k < j ==> r[k] == s[k].(id := k + 1)
      invariant forall k :: j <= k < |r| ==> r[k] == s[k]
    {
      r := r[j := r[j].(id := j + 1)];
      j := j + 1;
    }
  }

  /** The JSON file holding the list. */
  class TodoFile {
    var todos: seq<Todo>
    ghost var saves: nat

    constructor (stored: seq<Todo>)
      ensures todos == stored && saves == 0
    {
      todos := stored;
      saves := 0;
    }

    method AddTodo(task: string, priority: string, now: Timestamp) returns (outcome: Outcome)
      modifies this
      ensures var r := Adding(old(todos), task, priority, now);
        && todos == r.todos && outcome == r.outcome
        && saves == old(saves) + (if r.saved then 1 else 0)
    {
      var list := todos;
      var todo := Todo(|list| + 1, task, priority, false, now, None);
      list := list + [todo];
      todos := list;
      saves := saves + 1;
      outcome := Added(todo);
    }

    method CompleteTodo(id: int, now: Timestamp) returns (outcome: Outcome)
      modifies this
      ensures var r := Completing(old(todos), id, now);
        && todos == r.todos && outcome == r.outcome
        && saves == old(saves) + (if r.saved then 1 else 0)
    {
      var list := todos;
      var i := 0;
      while i < |list|
        invariant 0 <= i <= |list|
        invariant list == todos == old(todos) && saves == old(saves)
        invariant forall k :: 0 <= k < i ==> list[k].id != id
      {
        if list[i].id == id {
          IndexOfIsFirst(Ids(list), id, i);
          if list[i].completed {
            return AlreadyCompleted(list[i].task);
          }
          list := list[i := list[i].(completed := true, completedAt := Some(now))];
          todos := list;
          saves := saves + 1;
          return Completed(list[i].task);
        }
        i := i + 1;
      }
      assert id !in Ids(list);
      return NotFound(id);
    }

    method DeleteTodo(id: int) returns (outcome: Outcome)
      modifies this
      ensures var r := Deleting(old(todos), id);
        && todos == r.todos && outcome == r.outcome
        && saves == old(saves) + (if r.saved then 1 else 0)
    {
      var list := todos;
      var i := 0;
      while i < |list|
        invariant 0 <= i <= |list|
        invariant list == todos == old(todos) && saves == old(saves)
        invariant forall k :: 0 <= k < i ==> list[k].id != id
      {
        if list[i].id == id {
          IndexOfIsFirst(Ids(list), id, i);
          var removed := list[i];
          list := list[..i] + list[i + 1..];
          assert list == RemoveAt(old(todos), i);
          list := Renumber(list);
          todos := list;
          saves := saves + 1;
          return Deleted(removed);
        }
        i := i + 1;
      }
      assert id !in Ids(list);
      return NotFound(id);
    }

    method ClearCompleted() returns (outcome: Outcome)
      modifies this
      ensures var r := Clearing(old(todos));
        && todos == r.todos && outcome == r.outcome
        && saves == old(saves) + (if r.saved then 1 else 0)
    {
      var list := todos;
      var active := Active(list);
      var removedCount := |list| - |active|;
      if removedCount == 0 {
        return NothingToClear;
      }
      active := Renumber(active);
      todos := active;
      saves := saves + 1;
      return Cleared(removedCount);
    }
  }
}
