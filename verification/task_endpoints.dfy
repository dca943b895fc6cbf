/**
 * The `/api/tasks` endpoints: three read-only queries over the id-ordered listing (tag filter,
 * overdue tasks, tag summary) and the handlers that drive the repository.
 */
module Endpoints {
  import opened Wrappers
  import opened Models
  import opened Enumerable
  import opened StringOrder
  import opened TagUtility
  import opened Data

  // ---------------------------------------------------------------- tag filter

  /** The task carries `tag` among its tags (`t.Tags.Contains(tag)`). */
  function HasTag(tag: string): TaskItem -> bool {
    (t: TaskItem) => tag in t.Tags
  }

  /**
   * `GET /api/tasks?tag=…`: with no tag, or a blank one, the whole listing; otherwise the
   * tasks carrying the trimmed, lower-cased tag, in listing order.
   */
  function FilterByTag(tasks: seq<TaskItem>, tag: Option<string>): seq<TaskItem> {
    if tag.None? || IsBlank(tag.value) then tasks
    else Where(tasks, HasTag(NormalizeTag(tag.value)))
  }

  /** A missing or blank tag filters nothing out. */
  lemma FilterByTagAll(tasks: seq<TaskItem>, tag: Option<string>)
    requires tag.None? || IsBlank(tag.value)
    ensures FilterByTag(tasks, tag) == tasks
  {
  }

  /**
   * A real tag keeps exactly the tasks that carry its normal form, each as often as it is
   * listed, in the order they are listed.
   */
  lemma FilterByTagSpec(tasks: seq<TaskItem>, tag: string)
    requires !IsBlank(tag)
    ensures var r := FilterByTag(tasks, Some(tag));
      && (forall t :: t in r <==> t in tasks && NormalizeTag(tag) in t.Tags)
      && (forall t :: multiset(r)[t] == if NormalizeTag(tag) in t.Tags then multiset(tasks)[t] else 0)
      && IsSubsequence(r, tasks)
  {
    var p := HasTag(NormalizeTag(tag));
    WhereMembers(tasks, p);
    WhereCount(tasks, p);
    WhereSubsequence(tasks, p);
  }

  // ------------------------------------------------------------------- overdue

  /** Due strictly before `now` and not done. */
  predicate IsOverdue(t: TaskItem, now: int) {
    t.DueDate.Some? && t.DueDate.value < now && t.Status != Done
  }

  function OverdueAt(now: int): TaskItem -> bool {
    (t: TaskItem) => IsOverdue(t, now)
  }

  /** The default order on nullable dates: no date first, then ascending. */
  predicate DueLe(a: Option<int>, b: Option<int>) {
    a.None? || (b.Some? && a.value <= b.value)
  }

  function ByDueDate(): (TaskItem, TaskItem) -> bool {
    (x: TaskItem, y: TaskItem) => DueLe(x.DueDate, y.DueDate)
  }

  lemma ByDueDateIsPreorder()
    ensures IsTotalPreorder(ByDueDate())
  {
  }

  /** `GET /api/tasks/overdue`: the overdue tasks, ordered by due date (stably). */
  function Overdue(tasks: seq<TaskItem>, now: int): seq<TaskItem> {
    ByDueDateIsPreorder();
    OrderBy(Where(tasks, OverdueAt(now)), ByDueDate())
  }

  /** Every task has a due date, and due dates never decrease along `r`. */
  predicate AscendingByDue(r: seq<TaskItem>) {
    forall i, j :: 0 <= i < j < |r| ==> r[i].DueDate.Some? && r[j].DueDate.Some? && r[i].DueDate.value <= r[j].DueDate.value
  }

  /**
   * The overdue list holds exactly the overdue tasks of the listing, each as often as it is
   * listed: sound, complete and a permutation of the filtered listing.
   */
  lemma OverdueMembers(tasks: seq<TaskItem>, now: int)
    ensures multiset(Overdue(tasks, now)) == multiset(Where(tasks, OverdueAt(now)))
    ensures forall t :: t in Overdue(tasks, now) <==> t in tasks && IsOverdue(t, now)
  {
    ByDueDateIsPreorder();
    var overdue := Where(tasks, OverdueAt(now));
    var r := Overdue(tasks, now);
    WhereMembers(tasks, OverdueAt(now));
    forall t ensures t in r <==> t in overdue {
      assert t in r <==> multiset(r)[t] > 0;
      assert t in overdue <==> multiset(overdue)[t] > 0;
    }
  }

  /** The overdue list is in ascending due-date order. */
  lemma OverdueAscending(tasks: seq<TaskItem>, now: int)
    ensures AscendingByDue(Overdue(tasks, now))
  {
    ByDueDateIsPreorder();
    OverdueMembers(tasks, now);
    var r := Overdue(tasks, now);
    assert SortedBy(r, ByDueDate());
    forall i | 0 <= i < |r| ensures r[i].DueDate.Some? {
      assert r[i] in r;
    }
    forall i, j | 0 <= i < j < |r| ensures r[i].DueDate.value <= r[j].DueDate.value {
      assert ByDueDate()(r[i], r[j]);
    }
  }

  /** Tasks due at the same moment appear in the order the listing has them. */
  lemma OverdueStable(tasks: seq<TaskItem>, now: int, k: TaskItem)
    ensures Where(Overdue(tasks, now), EquivalentTo(ByDueDate(), k))
         == Where(Where(tasks, OverdueAt(now)), EquivalentTo(ByDueDate(), k))
  {
    ByDueDateIsPreorder();
    OrderByStable(Where(tasks, OverdueAt(now)), ByDueDate(), k);
  }

  // --------------------------------------------------------------- tag summary

  /** One row of `GET /api/tasks/tags`. */
  datatype TagCount = TagCount(tag: string, count: nat)

  /** `SelectMany(t => t.Tags)`: every tag of every task, task after task. */
  function AllTags(tasks: seq<TaskItem>): seq<string> {
    if tasks == [] then [] else tasks[0].Tags + AllTags(tasks[1..])
  }

  /** A tag occurs in the flattened list exactly when some task carries it. */
  lemma {:induction false} AllTagsMembers(tasks: seq<TaskItem>)
    ensures forall x :: x in AllTags(tasks) <==> exists t :: t in tasks && x in t.Tags
  {
    if tasks != [] {
      AllTagsMembers(tasks[1..]);
      assert forall t :: t in tasks <==> t == tasks[0] || t in tasks[1..];
    }
  }

  /** The group `GroupBy(t => t)` forms for key `k`: the occurrences of `k`. */
  function Group(s: seq<string>, k: string): seq<string> {
    Where(s, EqualTo(k))
  }

  /** `Select(g => new { tag = g.Key, count = g.Count() })` over the groups for `keys`. */
  function Groups(keys: seq<string>, s: seq<string>): (r: seq<TagCount>)
    ensures |r| == |keys|
  {
    if keys == [] then [] else [TagCount(keys[0], |Group(s, keys[0])|)] + Groups(keys[1..], s)
  }

  function ByTag(): (TagCount, TagCount) -> bool {
    (x: TagCount, y: TagCount) => OrdinalLe(x.tag, y.tag)
  }

  lemma ByTagIsPreorder()
    ensures IsTotalPreorder(ByTag())
  {
    forall x: TagCount, y: TagCount ensures ByTag()(x, y) || ByTag()(y, x) {
      OrdinalTotal(x.tag, y.tag);
    }
    forall x: TagCount, y: TagCount, z: TagCount | ByTag()(x, y) && ByTag()(y, z) ensures ByTag()(x, z) {
      OrdinalTransitive(x.tag, y.tag, z.tag);
    }
  }

  /**
   * `GET /api/tasks/tags`: one row per distinct tag (groups keyed in first-occurrence order),
   * holding the number of its occurrences, sorted by tag.
   */
  function TagSummary(tasks: seq<TaskItem>): seq<TagCount> {
    var all := AllTags(tasks);
    ByTagIsPreorder();
    OrderBy(Groups(Distinct(all), all), ByTag())
  }

  /** Row i of the groups is key i with its number of occurrences in `s`. */
  lemma {:induction false} GroupsRows(keys: seq<string>, s: seq<string>)
    ensures forall i :: 0 <= i < |keys| ==>
      Groups(keys, s)[i] == TagCount(keys[i], multiset(s)[keys[i]])
  {
    if keys != [] {
      GroupsRows(keys[1..], s);
      WhereEqualLength(s, keys[0]);
      var r := Groups(keys, s);
      assert forall i :: 1 <= i < |keys| ==> r[i] == Groups(keys[1..], s)[i - 1];
    }
  }

  /** Each summary row counts its tag's occurrences, and every occurring tag has a row. */
  lemma TagSummaryRows(tasks: seq<TaskItem>)
    ensures forall c :: c in TagSummary(tasks) <==>
      c.tag in AllTags(tasks) && c.count == multiset(AllTags(tasks))[c.tag]
  {
    var all := AllTags(tasks);
    var keys := Distinct(all);
    var groups := Groups(keys, all);
    ByTagIsPreorder();
    GroupsRows(keys, all);
    var r := TagSummary(tasks);
    assert multiset(r) == multiset(groups);
    forall c ensures c in r <==> c in groups {
      assert c in r <==> multiset(r)[c] > 0;
      assert c in groups <==> multiset(groups)[c] > 0;
    }
    forall c ensures c in groups <==> c.tag in all && c.count == multiset(all)[c.tag] {
      if c in groups {
        var i :| 0 <= i < |groups| && groups[i] == c;
        assert keys[i] in keys;
      }
      if c.tag in all && c.count == multiset(all)[c.tag] {
        var i :| 0 <= i < |keys| && keys[i] == c.tag;
        assert groups[i] == c;
      }
    }
  }

  /** Tags strictly ascend along `r` in code-point order, so no tag has two rows. */
  predicate TagsAscending(r: seq<TagCount>) {
    forall i, j :: 0 <= i < j < |r| ==> OrdinalLe(r[i].tag, r[j].tag) && r[i].tag != r[j].tag
  }

  /** The summary's tags are distinct and strictly ascending. */
  lemma TagSummaryAscending(tasks: seq<TaskItem>)
    ensures TagsAscending(TagSummary(tasks))
  {
    var all := AllTags(tasks);
    var keys := Distinct(all);
    var groups := Groups(keys, all);
    ByTagIsPreorder();
    GroupsRows(keys, all);
    TagSummaryRows(tasks);
    var r := TagSummary(tasks);
    assert NoDuplicates(groups) by {
      forall i, j | 0 <= i < j < |groups| ensures groups[i] != groups[j] {
        assert groups[i].tag == keys[i] && groups[j].tag == keys[j];
      }
    }
    NoDuplicatesCount(groups);
    NoDuplicatesCount(r);
    assert NoDuplicates(r);
    forall i, j | 0 <= i < j < |r| ensures OrdinalLe(r[i].tag, r[j].tag) && r[i].tag != r[j].tag {
      assert ByTag()(r[i], r[j]);
      assert r[i] in r && r[j] in r;
    }
  }

  /** The sum of the counts of `rows`. */
  function SumCounts(rows: seq<TagCount>): nat {
    if rows == [] then 0 else rows[0].count + SumCounts(rows[1..])
  }

  /**
   * Rows with distinct tags, each counting its tag's occurrences in `s`, and covering every
   * element of `s`, account for all of `s`.
   */
  lemma {:induction false} SumCountsCovers(rows: seq<TagCount>, s: seq<string>)
    requires forall i, j :: 0 <= i < j < |rows| ==> rows[i].tag != rows[j].tag
    requires forall c :: c in rows ==> c.count == multiset(s)[c.tag]
    requires forall x :: x in s ==> exists c :: c in rows && c.tag == x
    ensures SumCounts(rows) == |s|
  {
    if rows == [] {
      assert forall i :: 0 <= i < |s| ==> s[i] !in s;  // nothing in `s` is covered, so `s` is empty
    } else {
      var t := rows[0].tag;
      var rest := Where(s, NotEqualTo(t));
      WhereEqualLength(s, t);
      WhereCount(s, NotEqualTo(t));
      WhereMembers(s, NotEqualTo(t));
      forall c | c in rows[1..] ensures c.count == multiset(rest)[c.tag] {
        var j :| 0 <= j < |rows[1..]| && rows[1..][j] == c;
        assert rows[j + 1] == c;
      }
      forall x | x in rest ensures exists c :: c in rows[1..] && c.tag == x {
        var c :| c in rows && c.tag == x;
        var j :| 0 <= j < |rows| && rows[j] == c;
        assert j != 0;
        assert rows[1..][j - 1] == c;
      }
      SumCountsCovers(rows[1..], rest);
    }
  }

  /** The counts add up to the number of tag occurrences across all tasks. */
  lemma TagSummaryTotal(tasks: seq<TaskItem>)
    ensures SumCounts(TagSummary(tasks)) == |AllTags(tasks)|
  {
    var all := AllTags(tasks);
    var r := TagSummary(tasks);
    TagSummaryRows(tasks);
    TagSummaryAscending(tasks);
    forall x | x in all ensures exists c :: c in r && c.tag == x {
      assert TagCount(x, multiset(all)[x]) in r;
    }
    SumCountsCovers(r, all);
  }

  /** A tag has a row exactly when some task carries it. */
  lemma TagSummaryPresence(tasks: seq<TaskItem>, x: string)
    ensures (exists c :: c in TagSummary(tasks) && c.tag == x) <==> exists t :: t in tasks && x in t.Tags
  {
    TagSummaryRows(tasks);
    AllTagsMembers(tasks);
    if x in AllTags(tasks) {
      assert TagCount(x, multiset(AllTags(tasks))[x]) in TagSummary(tasks);
    }
  }

  // ------------------------------------------------------------------ handlers

  /** What a handler answers with, in place of the framework's `Results` objects. */
  datatype Body = Item(item: TaskItem) | Items(items: seq<TaskItem>) | Summary(rows: seq<TagCount>)

  datatype Response =
    | Ok(body: Body)
    | Created(location: string, created: TaskItem)
    | NoContent
    | NotFound
    | BadRequest(error: string)

  const TitleRequired := "Title is required."
  const RoutePrefix := "/api/tasks/"

  function DigitChar(d: nat): char
    requires d < 10
  {
    ('0' as int + d) as char
  }

  function DigitValue(c: char): int {
    c as int - '0' as int
  }

  predicate IsDigit(c: char) {
    '0' <= c <= '9'
  }

  /** The decimal form of `n`, as string interpolation prints a non-negative `int`. */
  function DecimalString(n: nat): string {
    if n < 10 then [DigitChar(n)] else DecimalString(n / 10) + [DigitChar(n % 10)]
  }

  /** Reads a run of decimal digits back into a number. */
  function ParseDecimal(s: string): int {
    if s == [] then 0 else 10 * ParseDecimal(s[..|s| - 1]) + DigitValue(s[|s| - 1])
  }

  /**
   * The decimal form is a non-empty run of digits without a leading zero (unless it is "0")
   * that reads back as `n`.
   */
  lemma {:induction false} DecimalStringRoundTrip(n: nat)
    ensures DecimalString(n) != []
    ensures |DecimalString(n)| == 1 || DecimalString(n)[0] != '0'
    ensures forall i :: 0 <= i < |DecimalString(n)| ==> IsDigit(DecimalString(n)[i])
    ensures ParseDecimal(DecimalString(n)) == n
  {
    if n >= 10 {
      DecimalStringRoundTrip(n / 10);
      var s := DecimalString(n);
      assert s[..|s| - 1] == DecimalString(n / 10);
    }
  }

  /** `GET /api/tasks?tag=…`. */
  method GetTasks(repo: InMemoryTaskRepository, tag: Option<string>) returns (r: Response)
    requires repo.Valid()
    ensures r == Ok(Items(FilterByTag(Listing(repo.tasks), tag)))
  {
    var all := repo.GetAll();
    r := Ok(Items(FilterByTag(all, tag)));
  }

  /** `GET /api/tasks/overdue`, with the current time passed in. */
  method GetOverdue(repo: InMemoryTaskRepository, now: int) returns (r: Response)
    requires repo.Valid()
    ensures r == Ok(Items(Overdue(Listing(repo.tasks), now)))
  {
    var all := repo.GetAll();
    r := Ok(Items(Overdue(all, now)));
  }

  /** `GET /api/tasks/tags`. */
  method GetTagSummary(repo: InMemoryTaskRepository) returns (r: Response)
    requires repo.Valid()
    ensures r == Ok(Summary(TagSummary(Listing(repo.tasks))))
  {
    var all := repo.GetAll();
    r := Ok(Summary(TagSummary(all)));
  }

  /** `GET /api/tasks/{id}`: the stored task, or NotFound. */
  method GetTask(repo: InMemoryTaskRepository, id: int) returns (r: Response)
    requires repo.Valid()
    ensures id in repo.tasks ==> r == Ok(Item(repo.tasks[id])) && r.body.item.Id == id
    ensures id !in repo.tasks ==> r == NotFound
  {
    var task := repo.GetById(id);
    if task.Some? {
      r := Ok(Item(task.value));
    } else {
      r := NotFound;
    }
  }

  /**
   * `POST /api/tasks`: a blank title is refused and nothing is stored; otherwise the task is
   * created under the next id and its location is reported.
   */
  method PostTask(repo: InMemoryTaskRepository, task: TaskItem, now: int) returns (r: Response)
    requires repo.Valid()
    modifies repo
    ensures repo.Valid()
    ensures IsBlank(task.Title) ==>
      && r == BadRequest(TitleRequired)
      && repo.tasks == old(repo.tasks) && repo.nextId == old(repo.nextId)
    ensures !IsBlank(task.Title) ==>
      var id := old(repo.nextId) + 1;
      && id !in old(repo.tasks)
      && repo.tasks == old(repo.tasks)[id := task.(Id := id, CreatedAt := now, Tags := NormalizeTags(task.Tags))]
      && repo.nextId == id
      && r == Created(RoutePrefix + DecimalString(id), repo.tasks[id])
  {
    if IsBlank(task.Title) {
      return BadRequest(TitleRequired);
    }
    var created := repo.Create(task, now);
    r := Created(RoutePrefix + DecimalString(created.Id), created);
  }

  /**
   * `PUT /api/tasks/{id}`: for a stored id, the body's title, description, status, due date
   * and tags replace the stored ones (tags normalised) while the id, creation time and update
   * time are kept; an unknown id gives NotFound and changes nothing.
   */
  method PutTask(repo: InMemoryTaskRepository, id: int, body: TaskItem) returns (r: Response)
    requires repo.Valid()
    modifies repo
    ensures repo.Valid()
    ensures id !in old(repo.tasks) ==> r == NotFound && repo.tasks == old(repo.tasks)
    ensures id in old(repo.tasks) ==>
      var updated := old(repo.tasks)[id].(Title := body.Title, Description := body.Description,
        Status := body.Status, DueDate := body.DueDate, Tags := NormalizeTags(body.Tags));
      && repo.tasks == old(repo.tasks)[id := updated]
      && r == Ok(Item(updated))
    ensures id in old(repo.tasks) ==>
      && repo.tasks[id].Id == id
      && repo.tasks[id].CreatedAt == old(repo.tasks)[id].CreatedAt
    ensures repo.tasks.Keys == old(repo.tasks.Keys) && repo.nextId == old(repo.nextId)
  {
    var existing := repo.GetById(id);
    if existing.None? {
      return NotFound;
    }
    var edited := existing.value.(Title := body.Title, Description := body.Description,
      Status := body.Status, DueDate := body.DueDate, Tags := body.Tags);
    var updated := repo.Update(edited);
    r := Ok(Item(updated.value));
  }

  /** `DELETE /api/tasks/{id}`: NoContent when something was removed, NotFound otherwise. */
  method DeleteTask(repo: InMemoryTaskRepository, id: int) returns (r: Response)
    requires repo.Valid()
    modifies repo
    ensures repo.Valid()
    ensures r == NoContent <==> id in old(repo.tasks)
    ensures r == NotFound <==> id !in old(repo.tasks)
    ensures repo.tasks == old(repo.tasks) - {id} && repo.nextId == old(repo.nextId)
  {
    var deleted := repo.Delete(id);
    r := if deleted then NoContent else NotFound;
  }
}
