/** `amazing-marvin-light`: document queries against the Amazing Marvin
    database, the category lookup by title, the recently-completed-tasks
    query and habit histories. */
module Marvin {
  import opened Wrappers
  import opened Json
  import opened Http
  import opened Text

  /** The database server: its answer to a `_find` request with a selector. */
  type Server = Value -> Response<Value>

  /** The object entries of an array, in order; other entries are dropped. */
  function Objects(items: seq<Value>): (r: seq<Doc>)
    decreases |items|
    ensures |r| <= |items|
    ensures forall i :: 0 <= i < |r| ==> JObject(r[i]) in items
    ensures forall i :: 0 <= i < |items| && items[i].JObject? ==> items[i].fields in r
  {
    if items == [] then []
    else (if items[0].JObject? then [items[0].fields] else []) + Objects(items[1..])
  }

  /** Dropping non-objects keeps the relative order of the objects. */
  lemma {:induction false} ObjectsAppend(a: seq<Value>, b: seq<Value>)
    ensures Objects(a + b) == Objects(a) + Objects(b)
    decreases |a|
  {
    if a == [] {
      assert a + b == b;
    } else {
      assert (a + b)[1..] == a[1..] + b;
      ObjectsAppend(a[1..], b);
    }
  }

  /** An array of objects only is kept whole. */
  lemma {:induction false} ObjectsAllObjects(items: seq<Value>)
    requires forall i :: 0 <= i < |items| ==> items[i].JObject?
    ensures |Objects(items)| == |items|
    ensures forall i :: 0 <= i < |items| ==> Objects(items)[i] == items[i].fields
    decreases |items|
  {
    if items != [] {
      ObjectsAllObjects(items[1..]);
    }
  }

  /** The documents of a `_find` answer: the objects of its `docs` array,
      none if `docs` is missing or not an array. */
  function DocsOf(body: Value): (r: seq<Doc>)
    ensures (match Get(body, "docs") case Some(JArray(items)) => false case _ => true) ==> r == []
    ensures body.JObject? && "docs" in body.fields && body.fields["docs"].JArray? ==>
      r == Objects(body.fields["docs"].items)
  {
    match Get(body, "docs")
    case Some(JArray(items)) => Objects(items)
    case _ => []
  }

  /** `find_docs`: a non-success status is `Error::Api` with the body text
      (empty if unreadable). */
  function FindDocs(server: Server, selector: Value): (r: Result<seq<Doc>, Error>)
    ensures !IsSuccess(server(selector).status) ==>
      r == Failure(Api(server(selector).status, server(selector).text.GetOr("")))
    ensures IsSuccess(server(selector).status) ==>
      r == (match server(selector).decoded
            case Success(body) => Success(DocsOf(body))
            case Failure(e) => Failure(e))
  {
    var body :- Checked(server(selector), "");
    Success(DocsOf(body))
  }

  function Quoted(s: string): string {
    "'" + s + "'"
  }

  /** `{"db": "Categories", "type": "category", "title": title}`. */
  function CategorySelector(title: string): Value {
    JObject(map["db" := JString("Categories"), "type" := JString("category"), "title" := JString(title)])
  }

  /** The selector alternative `done` is false or absent. */
  function NotDone(): Value {
    JArray([JObject(map["done" := JBool(false)]),
            JObject(map["done" := JObject(map["$exists" := JBool(false)])])])
  }

  /** The decision of `get_category_id_by_title` on the matching documents:
      exactly one match, and it must carry a string `_id`. */
  function CategoryIdFromDocs(docs: seq<Doc>, title: string): (r: Result<string, Error>)
    ensures r.Success? <==> |docs| == 1 && StrField(docs[0], "_id").Some?
    ensures r.Success? ==> r.value == docs[0]["_id"].s
    ensures |docs| == 0 ==> r == Failure(Api(404, "No category found with title " + Quoted(title)))
    ensures |docs| == 1 && r.Failure? ==> r == Failure(Api(400, "Category " + Quoted(title) + " does not have a valid _id"))
    ensures |docs| >= 2 ==> r == Failure(Api(409, "Found " + Decimal(|docs|) + " categories with title "
                                                  + Quoted(title) + ", expected exactly one"))
  {
    if |docs| == 0 then Failure(Api(404, "No category found with title " + Quoted(title)))
    else if |docs| == 1 then
      match StrField(docs[0], "_id")
      case Some(id) => Success(id)
      case None => Failure(Api(400, "Category " + Quoted(title) + " does not have a valid _id"))
    else Failure(Api(409, "Found " + Decimal(|docs|) + " categories with title " + Quoted(title) + ", expected exactly one"))
  }

  /** `get_category_id_by_title`. */
  function GetCategoryIdByTitle(server: Server, title: string): (r: Result<string, Error>)
    ensures FindDocs(server, CategorySelector(title)).Failure? ==> r == Failure(FindDocs(server, CategorySelector(title)).error)
    ensures FindDocs(server, CategorySelector(title)).Success? ==>
      r == CategoryIdFromDocs(FindDocs(server, CategorySelector(title)).value, title)
  {
    var docs :- FindDocs(server, CategorySelector(title));
    CategoryIdFromDocs(docs, title)
  }

  /** Two weeks in milliseconds. */
  const TwoWeeksMillis: nat := 14 * 24 * 60 * 60 * 1000

  /** `now.as_millis() as u64 - TWO_WEEKS` in a release build: the cast keeps
      the low 64 bits and the subtraction wraps around. */
  function TwoWeeksAgo(nowMillis: nat): (r: nat)
    ensures r < U64Limit
    ensures (r + TwoWeeksMillis) % U64Limit == nowMillis % U64Limit
    ensures nowMillis < U64Limit && nowMillis >= TwoWeeksMillis ==> r == nowMillis - TwoWeeksMillis
  {
    var now64 := nowMillis % U64Limit;
    if now64 >= TwoWeeksMillis then now64 - TwoWeeksMillis else now64 + U64Limit - TwoWeeksMillis
  }

  /** Tasks of a category, done at or after `cutoff` milliseconds. */
  function RecentlyCompletedSelector(categoryId: string, cutoff: nat): Value {
    JObject(map["db" := JString("Tasks"), "parentId" := JString(categoryId), "done" := JBool(true),
                "doneAt" := JObject(map["$gte" := JInt(cutoff)])])
  }

  /** `find_recently_completed_tasks_in_category`: look the category up,
      then ask for its tasks done within the last two weeks. */
  function FindRecentlyCompletedTasks(server: Server, title: string, nowMillis: nat): (r: Result<seq<Doc>, Error>)
    ensures GetCategoryIdByTitle(server, title).Failure? ==> r == Failure(GetCategoryIdByTitle(server, title).error)
    ensures GetCategoryIdByTitle(server, title).Success? ==>
      var selector := RecentlyCompletedSelector(GetCategoryIdByTitle(server, title).value, TwoWeeksAgo(nowMillis));
      selector.fields["doneAt"] == JObject(map["$gte" := JInt(TwoWeeksAgo(nowMillis))])
      && r == FindDocs(server, selector)
  {
    var id :- GetCategoryIdByTitle(server, title);
    FindDocs(server, RecentlyCompletedSelector(id, TwoWeeksAgo(nowMillis)))
  }

  /** `find_tasks_in_category`: the open tasks of the category. */
  function FindTasksInCategory(server: Server, title: string): (r: Result<seq<Doc>, Error>)
    ensures GetCategoryIdByTitle(server, title).Failure? ==> r == Failure(GetCategoryIdByTitle(server, title).error)
    ensures GetCategoryIdByTitle(server, title).Success? ==>
      r == FindDocs(server, JObject(map["db" := JString("Tasks"),
                                        "parentId" := JString(GetCategoryIdByTitle(server, title).value),
                                        "$or" := NotDone()]))
  {
    var id :- GetCategoryIdByTitle(server, title);
    FindDocs(server, JObject(map["db" := JString("Tasks"), "parentId" := JString(id), "$or" := NotDone()]))
  }

  /** `get_active_habits`. */
  function HabitsSelector(): Value {
    JObject(map["db" := JString("Habits"), "$or" := NotDone()])
  }

  /** The first habit whose `title` is the string `name`. */
  function HabitTitled(habits: seq<Doc>, name: string): (r: Option<nat>)
    decreases |habits|
    ensures r.Some? ==> r.value < |habits| && StrField(habits[r.value], "title") == Some(name)
    ensures r.Some? ==> forall i :: 0 <= i < r.value ==> StrField(habits[i], "title") != Some(name)
    ensures r.None? ==> forall i :: 0 <= i < |habits| ==> StrField(habits[i], "title") != Some(name)
  {
    if habits == [] then None
    else if StrField(habits[0], "title") == Some(name) then Some(0)
    else match HabitTitled(habits[1..], name)
      case None => None
      case Some(k) => Some(k + 1)
  }

  /** A history pair: a `u64` timestamp and a number. */
  function PairAt(history: seq<Value>, i: int): Option<(nat, real)>
    requires 0 <= i && 2 * i + 1 < |history|
  {
    match (AsU64(history[2 * i]), AsF64(history[2 * i + 1]))
    case (Some(t), Some(v)) => Some((t, v))
    case _ => None
  }

  /** `history.chunks_exact(2)` kept where the chunk decodes: a trailing odd
      entry is ignored and undecodable pairs are dropped. */
  function HistoryPairs(history: seq<Value>): (r: seq<(nat, real)>)
    decreases |history|
    ensures |r| <= |history| / 2
  {
    if |history| < 2 then []
    else (match PairAt(history, 0) case Some(p) => [p] case None => []) + HistoryPairs(history[2..])
  }

  /** Every pair returned decodes one chunk of the history. */
  lemma {:induction false} HistoryPairsFromChunks(history: seq<Value>, k: int)
    requires 0 <= k < |HistoryPairs(history)|
    ensures exists i :: 0 <= i && 2 * i + 1 < |history| && PairAt(history, i) == Some(HistoryPairs(history)[k])
    decreases |history|
  {
    var r := HistoryPairs(history);
    var rest := HistoryPairs(history[2..]);
    if PairAt(history, 0).Some? && k == 0 {
      assert PairAt(history, 0) == Some(r[k]);
    } else {
      var k' := if PairAt(history, 0).Some? then k - 1 else k;
      assert r[k] == rest[k'];
      HistoryPairsFromChunks(history[2..], k');
      var i :| 0 <= i && 2 * i + 1 < |history[2..]| && PairAt(history[2..], i) == Some(rest[k']);
      assert PairAt(history, i + 1) == PairAt(history[2..], i);
    }
  }

  /** When every chunk decodes, the result is the chunks in order, one pair each. */
  lemma {:induction false} HistoryPairsAllValid(history: seq<Value>)
    requires forall i :: 0 <= i && 2 * i + 1 < |history| ==> PairAt(history, i).Some?
    ensures |HistoryPairs(history)| == |history| / 2
    ensures forall i :: 0 <= i < |history| / 2 ==> Some(HistoryPairs(history)[i]) == PairAt(history, i)
    decreases |history|
  {
    if |history| >= 2 {
      var tail := history[2..];
      forall i | 0 <= i && 2 * i + 1 < |tail| ensures PairAt(tail, i).Some? {
        assert PairAt(tail, i) == PairAt(history, i + 1);
      }
      HistoryPairsAllValid(tail);
      forall i | 1 <= i < |history| / 2 ensures Some(HistoryPairs(history)[i]) == PairAt(history, i) {
        assert PairAt(tail, i - 1) == PairAt(history, i);
      }
    }
  }

  /** A trailing odd entry makes no difference. */
  lemma {:induction false} HistoryOddEntryIgnored(history: seq<Value>, extra: Value)
    requires |history| % 2 == 0
    ensures HistoryPairs(history + [extra]) == HistoryPairs(history)
    decreases |history|
  {
    var h := history + [extra];
    if |history| >= 2 {
      assert h[2..] == history[2..] + [extra];
      assert PairAt(h, 0) == PairAt(history, 0);
      HistoryOddEntryIgnored(history[2..], extra);
    }
  }

  /** A history splits at any even position: the pairs of the first part,
      then those of the second.  With the one-chunk case, this gives the
      chunks (2i, 2i+1) in order, each kept iff it decodes. */
  lemma {:induction false} HistoryPairsAppend(a: seq<Value>, b: seq<Value>)
    requires |a| % 2 == 0
    ensures HistoryPairs(a + b) == HistoryPairs(a) + HistoryPairs(b)
    decreases |a|
  {
    if |a| >= 2 {
      var head := match PairAt(a, 0) case Some(p) => [p] case None => [];
      assert PairAt(a + b, 0) == PairAt(a, 0);
      assert HistoryPairs(a) == head + HistoryPairs(a[2..]);
      assert (a + b)[2..] == a[2..] + b;
      assert HistoryPairs(a + b) == head + HistoryPairs(a[2..] + b);
      HistoryPairsAppend(a[2..], b);
    } else {
      assert a + b == b;
    }
  }

  /** One chunk gives its pair if it decodes, and nothing otherwise. */
  lemma HistoryPairsChunk(t: Value, v: Value)
    ensures HistoryPairs([t, v]) == match (AsU64(t), AsF64(v))
      case (Some(n), Some(x)) => [(n, x)]
      case _ => []
  {
    assert [t, v][2..] == [];
  }

  /** The `history` array of a habit, or nothing if it is missing or not an array. */
  function HistoryOf(habit: Doc): seq<Value> {
    match Field(habit, "history") case Some(JArray(items)) => items case _ => []
  }

  /** `get_habit_datapoints`: the first active habit with that title, and
      the pairs of its `history` array (none if missing or not an array). */
  function GetHabitDatapoints(server: Server, name: string): (r: Result<seq<(nat, real)>, Error>)
    ensures FindDocs(server, HabitsSelector()).Failure? ==> r == Failure(FindDocs(server, HabitsSelector()).error)
    ensures FindDocs(server, HabitsSelector()).Success? ==>
      var habits := FindDocs(server, HabitsSelector()).value;
      && (r.Failure? <==> forall i :: 0 <= i < |habits| ==> StrField(habits[i], "title") != Some(name))
      && (r.Failure? ==> r.error == Api(404, "Habit with name " + Quoted(name) + " not found"))
      && (r.Success? ==> exists k :: 0 <= k < |habits| && StrField(habits[k], "title") == Some(name)
                                     && (forall j :: 0 <= j < k ==> StrField(habits[j], "title") != Some(name))
                                     && r.value == HistoryPairs(HistoryOf(habits[k])))
  {
    var habits :- FindDocs(server, HabitsSelector());
    match HabitTitled(habits, name)
    case None => Failure(Api(404, "Habit with name " + Quoted(name) + " not found"))
    case Some(k) => Success(HistoryPairs(HistoryOf(habits[k])))
  }

  /** A found habit without a `history` array has no datapoints. */
  lemma HabitWithoutHistory(server: Server, name: string)
    requires FindDocs(server, HabitsSelector()).Success?
    requires var habits := FindDocs(server, HabitsSelector()).value;
      HabitTitled(habits, name).Some?
      && !(Field(habits[HabitTitled(habits, name).value], "history").Some?
           && Field(habits[HabitTitled(habits, name).value], "history").value.JArray?)
    ensures GetHabitDatapoints(server, name) == Success([])
  {
  }
}
