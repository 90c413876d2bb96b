/**
  The activity timeline of the `features/timeline` page: every recorded
  task event and every note becomes a display item, the items are merged
  into one feed, newest first, and the feed is cut into calendar days,
  newest day first.

  The calendar day of a timestamp (`startOfDay` in the local time zone) is
  a parameter `day`; the only thing the grouping relies on is that a later
  time never falls on an earlier day.
 */
module Timeline {
  import opened Basics
  import opened Sorting
  import opened OverlayStore

  /** The three status icons of the page. */
  datatype Icon = CheckCircle | Zap | Hourglass

  datatype StatusMeta = StatusMeta(icon: Icon, color: string, name: string)

  /** The page's status table, keyed by column id. */
  function StatusMap(key: string): (m: Option<StatusMeta>)
    ensures m.Some? <==> key in {"done", "in-progress", "planned", "todo"}
    ensures m.Some? ==> m.value.name != ""
  {
    if key == "done" then Some(StatusMeta(CheckCircle, "bg-emerald-500", "Selesai"))
    else if key == "in-progress" then Some(StatusMeta(Zap, "bg-amber-500", "Dikerjakan"))
    else if key == "planned" || key == "todo" then Some(StatusMeta(Hourglass, "bg-slate-400", "Direncanakan"))
    else None
  }

  /** `statusMap[key] ?? statusMap.planned` */
  function MetaFor(key: string): (m: StatusMeta)
    ensures StatusMap(key).Some? ==> m == StatusMap(key).value
    ensures StatusMap(key).None? ==> m == StatusMap("planned").value
  {
    StatusMap(key).GetOr(StatusMap("planned").value)
  }

  /** A row of the feed: a task event or a note. */
  datatype FeedItem =
    | TaskEntry(id: string, header: string, content: string, statusKey: string,
                timestamp: Time, labels: seq<string>)
    | NoteEntry(id: string, content: string, timestamp: Time)

  /** `e.title ?? taskTitles[e.taskId]` */
  function EventTitle(e: TimelineEvent, titles: map<string, string>): (t: Option<string>)
    ensures e.title.Some? ==> t == e.title
    ensures e.title.None? && e.taskId in titles ==> t == Some(titles[e.taskId])
    ensures t.None? <==> e.title.None? && e.taskId !in titles
  {
    if e.title.Some? then e.title
    else if e.taskId in titles then Some(titles[e.taskId])
    else None
  }

  /** `toColumnId ?? 'planned'` */
  function StatusKey(e: TimelineEvent): string {
    e.toColumnId.GetOr("planned")
  }

  /** `statusMap[key]?.label || key`: the status label, or the raw key. */
  function MovedLabel(key: string): string {
    match StatusMap(key)
    case Some(m) => if m.name != "" then m.name else key
    case None => key
  }

  function Header(kind: EventKind): string {
    match kind
    case TaskCreated => "Tugas dibuat"
    case TaskUpdated => "Tugas diperbarui"
    case TaskMoved => "Tugas dipindahkan"
    case TaskDeleted => "Tugas dihapus"
  }

  /** The text shown for an event with no known title. */
  function FallbackTitle(e: TimelineEvent): string {
    if e.kind == TaskDeleted then "Task #" + e.taskId + " dihapus" else "Task #" + e.taskId
  }

  function LabelsFor(labels: map<string, seq<string>>, taskId: string): seq<string> {
    if taskId in labels then labels[taskId] else []
  }

  /** The text of an event item before any move suffix: the event's own
      title, else the stored title of the task, else the fallback. */
  function BaseText(e: TimelineEvent, titles: map<string, string>): string {
    EventTitle(e, titles).GetOr(FallbackTitle(e))
  }

  /** The display item of one event. */
  function EventItem(e: TimelineEvent, titles: map<string, string>, labels: map<string, seq<string>>): (it: FeedItem)
    ensures it.TaskEntry? && it.id == e.id && it.timestamp == e.timestamp
    ensures it.header == Header(e.kind)
    ensures it.statusKey == (if e.toColumnId.Some? then e.toColumnId.value else "planned")
    ensures it.labels == (if e.taskId in labels then labels[e.taskId] else [])
  {
    var key := StatusKey(e);
    var base := BaseText(e, titles);
    var content := if e.kind == TaskMoved then base + " dipindah ke \"" + MovedLabel(key) + "\"" else base;
    TaskEntry(e.id, Header(e.kind), content, key, e.timestamp, LabelsFor(labels, e.taskId))
  }

  /** An event item's text is the event's own title, else the stored title
      of the task, else `Task #<id>` (with ` dihapus` for a deletion); a move
      appends the label of the target status, or the raw key when the table
      has none. */
  lemma EventItemContent(e: TimelineEvent, titles: map<string, string>, labels: map<string, seq<string>>)
    ensures var base := if EventTitle(e, titles).Some? then EventTitle(e, titles).value else FallbackTitle(e);
      EventItem(e, titles, labels).content
        == base + (if e.kind == TaskMoved then " dipindah ke \"" + MovedLabel(StatusKey(e)) + "\"" else "")
  {
    var base := BaseText(e, titles);
    if e.kind != TaskMoved {
      assert base + "" == base;
    }
  }

  /** The text of a move ends with the label of the target status, quoted. */
  lemma MovedContentEnds(e: TimelineEvent, titles: map<string, string>, labels: map<string, seq<string>>)
    requires e.kind == TaskMoved
    ensures var it := EventItem(e, titles, labels);
      var lab := MovedLabel(it.statusKey);
      && |lab| + 1 <= |it.content|
      && it.content[|it.content| - |lab| - 1..] == lab + "\""
  {
    var it := EventItem(e, titles, labels);
    var lab := MovedLabel(it.statusKey);
    var front := BaseText(e, titles) + " dipindah ke \"";
    assert it.content == front + (lab + "\"");
  }

  /** A move whose target column is unknown reads "moved to Direncanakan",
      the planned status, whatever column the task went to. */
  lemma MoveWithoutTargetIsPlanned(e: TimelineEvent, titles: map<string, string>, labels: map<string, seq<string>>)
    requires e.kind == TaskMoved && e.toColumnId.None?
    ensures EventItem(e, titles, labels).statusKey == "planned"
    ensures MovedLabel(EventItem(e, titles, labels).statusKey) == "Direncanakan"
  {
  }

  function NoteItem(n: Note): (it: FeedItem)
    ensures it.NoteEntry? && it.id == n.id && it.content == n.content && it.timestamp == n.timestamp
  {
    NoteEntry(n.id, n.content, n.timestamp)
  }

  function EventItems(events: seq<TimelineEvent>, titles: map<string, string>, labels: map<string, seq<string>>): (r: seq<FeedItem>)
    ensures |r| == |events|
    ensures forall i :: 0 <= i < |r| ==> r[i] == EventItem(events[i], titles, labels)
  {
    seq(|events|, i requires 0 <= i < |events| => EventItem(events[i], titles, labels))
  }

  function NoteItems(notes: seq<Note>): (r: seq<FeedItem>)
    ensures |r| == |notes|
    ensures forall i :: 0 <= i < |r| ==> r[i] == NoteItem(notes[i])
  {
    seq(|notes|, i requires 0 <= i < |notes| => NoteItem(notes[i]))
  }

  /** The sort key of a newest-first order. */
  function Newest(it: FeedItem): int {
    -it.timestamp
  }

  /** Timestamps never increase along `s`. */
  ghost predicate NewestFirst(s: seq<FeedItem>) {
    forall i, j :: 0 <= i < j < |s| ==> s[i].timestamp >= s[j].timestamp
  }

  /** The event items followed by the note items, before sorting. */
  function Merged(st: Overlay): seq<FeedItem> {
    EventItems(st.events, st.taskTitles, st.taskLabels) + NoteItems(st.notes)
  }

  /** The merged feed, newest first; items with equal timestamps keep
      their merge order. */
  function Feed(st: Overlay): (r: seq<FeedItem>)
    ensures |r| == |st.events| + |st.notes|
  {
    SortBy(Merged(st), Newest)
  }

  /** The feed holds every event item and every note item, each exactly as
      often as it was merged. */
  lemma FeedContents(st: Overlay)
    ensures multiset(Feed(st)) == multiset(EventItems(st.events, st.taskTitles, st.taskLabels)) + multiset(NoteItems(st.notes))
  {
  }

  /** The feed is newest first. */
  lemma FeedNewestFirst(st: Overlay)
    ensures NewestFirst(Feed(st))
  {
    assert SortedBy(Feed(st), Newest);
  }

  /** Items with the same timestamp keep their merge order: events before
      notes, each in store order. */
  lemma {:induction false} FeedStable(st: Overlay, t: Time)
    ensures WithKey(Feed(st), Newest, -t) == WithKey(Merged(st), Newest, -t)
  {
    var m := Merged(st);
    NewestStable(m, t);
  }

  lemma NewestStable(s: seq<FeedItem>, t: Time)
    ensures WithKey(SortBy(s, Newest), Newest, -t) == WithKey(s, Newest, -t)
  {
    WithKeyKept(s, Newest, -t);
  }

  /** The note form: content of fewer than three characters is rejected
      before the store sees it. */
  function SubmitNote(st: Overlay, content: string, freshId: string, now: Time): (r: Overlay)
    ensures |content| < 3 ==> r == st
    ensures |content| >= 3 ==> |r.notes| >= 1 && r.notes[0] == Note(freshId, content, now)
    ensures |content| >= 3 ==> r.events == st.events
    ensures |content| >= 3 ==> r == AddNote(st, content, freshId, now)
  {
    if |content| >= 3 then AddNote(st, content, freshId, now) else st
  }

  /** A later time never falls on an earlier day. */
  ghost predicate Monotone(day: Time -> Time) {
    forall a, b :: a <= b ==> day(a) <= day(b)
  }

  function OnDay(day: Time -> Time, d: Time): FeedItem -> bool {
    (it: FeedItem) => day(it.timestamp) == d
  }

  /** The distinct days of `s`, in the order they are first met (the key
      order of the `Map` the page fills). */
  function DayKeys(s: seq<FeedItem>, day: Time -> Time): (r: seq<Time>)
    ensures Distinct(r)
    ensures forall d :: d in r <==> exists i :: 0 <= i < |s| && day(s[i].timestamp) == d
  {
    if |s| == 0 then []
    else
      var init := s[..|s| - 1];
      var k := DayKeys(init, day);
      var d := day(s[|s| - 1].timestamp);
      assert forall i :: 0 <= i < |init| ==> init[i] == s[i];
      if d in k then k else k + [d]
  }

  /** A day and its items, newest first. */
  datatype DayGroup = DayGroup(day: Time, items: seq<FeedItem>)

  /** The items of day `d`, newest first. */
  function DayItems(s: seq<FeedItem>, day: Time -> Time, d: Time): seq<FeedItem> {
    SortBy(Filter(s, OnDay(day, d)), Newest)
  }

  /** The group of each key, in key order. */
  function Groups(keys: seq<Time>, s: seq<FeedItem>, day: Time -> Time): (r: seq<DayGroup>)
    ensures |r| == |keys|
    ensures forall i :: 0 <= i < |r| ==> r[i].day == keys[i]
  {
    if |keys| == 0 then []
    else [DayGroup(keys[0], DayItems(s, day, keys[0]))] + Groups(keys[1..], s, day)
  }

  /** The group of a key holds the items of that key's day. */
  lemma {:induction false} GroupsAt(keys: seq<Time>, s: seq<FeedItem>, day: Time -> Time, i: int)
    requires 0 <= i < |keys|
    ensures Groups(keys, s, day)[i].items == DayItems(s, day, keys[i])
  {
    if i > 0 {
      GroupsAt(keys[1..], s, day, i - 1);
    }
  }

  function NewestDay(d: Time): int {
    -d
  }

  /** What `groupByDay` returns: one group per distinct day, newest day
      first, each holding exactly the items of that day, newest first. */
  function GroupByDaySpec(s: seq<FeedItem>, day: Time -> Time): seq<DayGroup> {
    Groups(SortBy(DayKeys(s, day), NewestDay), s, day)
  }

  /** The items of the groups, one group after the other. */
  function ItemsOf(gs: seq<DayGroup>): seq<FeedItem> {
    if |gs| == 0 then [] else gs[0].items + ItemsOf(gs[1..])
  }

  /** `groupByDay`: fills a map from day to items in one pass, then lists
      the entries newest day first with each list sorted newest first. */
  method GroupByDay(items: seq<FeedItem>, day: Time -> Time) returns (groups: seq<DayGroup>)
    ensures groups == GroupByDaySpec(items, day)
  {
    var keys, m := CollectDays(items, day);
    var sorted := SortBy(keys, NewestDay);
    forall i | 0 <= i < |sorted|
      ensures sorted[i] in m
    {
      assert sorted[i] in multiset(keys);
    }
    ListGroupsAreGroups(sorted, m, items, day);
    groups := ListGroups(sorted, m);
  }

  /** The filling loop: the days in the order they are first met, and for
      each day its items in feed order. */
  method CollectDays(items: seq<FeedItem>, day: Time -> Time) returns (keys: seq<Time>, m: map<Time, seq<FeedItem>>)
    ensures keys == DayKeys(items, day)
    ensures forall d :: d in m <==> d in keys
    ensures forall d :: d in m ==> m[d] == Filter(items, OnDay(day, d))
  {
    keys := [];
    m := map[];
    var i := 0;
    while i < |items|
      invariant 0 <= i <= |items|
      invariant keys == DayKeys(items[..i], day)
      invariant forall d :: d in m <==> d in keys
      invariant forall d :: d in m ==> m[d] == Filter(items[..i], OnDay(day, d))
    {
      GroupLoopStep(items, i, keys, m, day);
      keys, m := AddKey(keys, day(items[i].timestamp)), PushItem(m, items[i], day);
      i := i + 1;
    }
    assert items[..i] == items;
  }

  /** The `.map` over the sorted entries: one group per key, in key order,
      each list sorted newest first. */
  function ListGroups(keys: seq<Time>, m: map<Time, seq<FeedItem>>): seq<DayGroup>
    requires forall i :: 0 <= i < |keys| ==> keys[i] in m
  {
    if |keys| == 0 then []
    else [DayGroup(keys[0], SortBy(m[keys[0]], Newest))] + ListGroups(keys[1..], m)
  }

  /** When the map holds, for each day, the items of that day, listing the
      entries gives the groups of the keys. */
  lemma {:induction false} ListGroupsAreGroups(keys: seq<Time>, m: map<Time, seq<FeedItem>>, items: seq<FeedItem>, day: Time -> Time)
    requires forall i :: 0 <= i < |keys| ==> keys[i] in m
    requires forall d :: d in m ==> m[d] == Filter(items, OnDay(day, d))
    ensures ListGroups(keys, m) == Groups(keys, items, day)
  {
    if |keys| > 0 {
      ListGroupsAreGroups(keys[1..], m, items, day);
    }
  }

  /** A day joins the key order the first time it is met. */
  function AddKey(keys: seq<Time>, k: Time): seq<Time> {
    if k in keys then keys else keys + [k]
  }

  /** `(map[key] ||= []).push(it)` */
  function PushItem(m: map<Time, seq<FeedItem>>, it: FeedItem, day: Time -> Time): map<Time, seq<FeedItem>> {
    var k := day(it.timestamp);
    m[k := (if k in m then m[k] else []) + [it]]
  }

  /** One pass of the grouping loop keeps its invariant. */
  lemma GroupLoopStep(items: seq<FeedItem>, i: int, keys: seq<Time>, m: map<Time, seq<FeedItem>>, day: Time -> Time)
    requires 0 <= i < |items|
    requires keys == DayKeys(items[..i], day)
    requires forall d :: d in m <==> d in keys
    requires forall d :: d in m ==> m[d] == Filter(items[..i], OnDay(day, d))
    ensures AddKey(keys, day(items[i].timestamp)) == DayKeys(items[..i + 1], day)
    ensures forall d :: d in PushItem(m, items[i], day) <==> d in AddKey(keys, day(items[i].timestamp))
    ensures forall d :: d in PushItem(m, items[i], day) ==> PushItem(m, items[i], day)[d] == Filter(items[..i + 1], OnDay(day, d))
  {
    assert items[..i + 1][..i] == items[..i];
    GroupStep(m, items[..i], items[i], day);
    assert items[..i + 1] == items[..i] + [items[i]];
  }

  /** One step of the grouping loop: pushing `it` onto the list of its day
      keeps every list equal to the items of that day seen so far. */
  lemma GroupStep(m: map<Time, seq<FeedItem>>, seen: seq<FeedItem>, it: FeedItem, day: Time -> Time)
    requires forall d :: d in m ==> m[d] == Filter(seen, OnDay(day, d))
    requires forall d :: d in m <==> d in DayKeys(seen, day)
    ensures forall d :: d in PushItem(m, it, day) ==> PushItem(m, it, day)[d] == Filter(seen + [it], OnDay(day, d))
  {
    var k := day(it.timestamp);
    if k !in m {
      forall i | 0 <= i < |seen|
        ensures day(seen[i].timestamp) != k
      {
      }
      FilterNone(seen, OnDay(day, k));
    }
    var p := PushItem(m, it, day);
    forall d | d in p
      ensures p[d] == Filter(seen + [it], OnDay(day, d))
    {
      FilterAppend(seen, [it], OnDay(day, d));
      assert [it][1..] == [];
      if d == k {
        assert Filter([it], OnDay(day, d)) == [it];
      } else {
        assert Filter([it], OnDay(day, d)) == [];
        assert p[d] == m[d];
      }
    }
  }

  lemma {:induction false} GroupsSnocKey(keys: seq<Time>, d: Time, s: seq<FeedItem>, day: Time -> Time)
    ensures Groups(keys + [d], s, day) == Groups(keys, s, day) + [DayGroup(d, DayItems(s, day, d))]
  {
    if |keys| > 0 {
      var head := DayGroup(keys[0], DayItems(s, day, keys[0]));
      assert (keys + [d])[0] == keys[0];
      assert (keys + [d])[1..] == keys[1..] + [d];
      GroupsSnocKey(keys[1..], d, s, day);
      assert Groups(keys + [d], s, day) == [head] + Groups(keys[1..] + [d], s, day);
      assert Groups(keys, s, day) == [head] + Groups(keys[1..], s, day);
    } else {
      assert keys + [d] == [d];
    }
  }

  lemma {:induction false} ItemsOfSnoc(gs: seq<DayGroup>, g: DayGroup)
    ensures ItemsOf(gs + [g]) == ItemsOf(gs) + g.items
  {
    if |gs| > 0 {
      assert (gs + [g])[1..] == gs[1..] + [g];
      ItemsOfSnoc(gs[1..], g);
    }
  }

  /** Appending an item of a day none of `keys` names leaves their groups
      as they were. */
  lemma {:induction false} GroupsOtherDay(keys: seq<Time>, s: seq<FeedItem>, x: FeedItem, day: Time -> Time)
    requires day(x.timestamp) !in keys
    ensures Groups(keys, s + [x], day) == Groups(keys, s, day)
  {
    if |keys| > 0 {
      FilterAppend(s, [x], OnDay(day, keys[0]));
      assert [x][1..] == [];
      assert Filter([x], OnDay(day, keys[0])) == [];
      assert Filter(s + [x], OnDay(day, keys[0])) == Filter(s, OnDay(day, keys[0]));
      assert DayItems(s + [x], day, keys[0]) == DayItems(s, day, keys[0]);
      GroupsOtherDay(keys[1..], s, x, day);
      assert Groups(keys, s + [x], day) == [DayGroup(keys[0], DayItems(s + [x], day, keys[0]))] + Groups(keys[1..], s + [x], day);
    }
  }

  /** In a newest-first feed the days never increase either. */
  lemma DaysNonIncreasing(s: seq<FeedItem>, day: Time -> Time, i: int, j: int)
    requires Monotone(day) && NewestFirst(s)
    requires 0 <= i <= j < |s|
    ensures day(s[i].timestamp) >= day(s[j].timestamp)
  {
    if i < j {
      assert s[i].timestamp >= s[j].timestamp;
    }
  }

  /** The last day met in a newest-first feed is the day of its last item. */
  lemma {:induction false} DayKeysLast(s: seq<FeedItem>, day: Time -> Time)
    requires Monotone(day) && NewestFirst(s)
    requires |s| > 0
    ensures |DayKeys(s, day)| > 0 && DayKeys(s, day)[|DayKeys(s, day)| - 1] == day(s[|s| - 1].timestamp)
  {
    var init := s[..|s| - 1];
    var x := s[|s| - 1];
    var k := DayKeys(init, day);
    var d := day(x.timestamp);
    if d in k {
      assert NewestFirst(init);
      DayKeysLast(init, day);
      var i :| 0 <= i < |init| && day(init[i].timestamp) == d;
      DaysNonIncreasing(s, day, i, |s| - 2);
      DaysNonIncreasing(s, day, |s| - 2, |s| - 1);
    }
  }

  /** In a newest-first feed the days are met newest first. */
  lemma {:induction false} DayKeysDescending(s: seq<FeedItem>, day: Time -> Time)
    requires Monotone(day) && NewestFirst(s)
    ensures forall a, b :: 0 <= a < b < |DayKeys(s, day)| ==> DayKeys(s, day)[a] > DayKeys(s, day)[b]
  {
    if |s| > 0 {
      var init := s[..|s| - 1];
      var x := s[|s| - 1];
      assert NewestFirst(init);
      DayKeysDescending(init, day);
      var k := DayKeys(init, day);
      var d := day(x.timestamp);
      if d !in k {
        forall a | 0 <= a < |k|
          ensures k[a] > d
        {
          assert k[a] in k;
          var i :| 0 <= i < |init| && day(init[i].timestamp) == k[a];
          DaysNonIncreasing(s, day, i, |s| - 1);
        }
      }
    }
  }

  /** The groups of a newest-first feed, read one after the other, give the
      feed back: grouping by day drops, duplicates and reorders nothing. */
  lemma {:induction false} GroupsFlatten(s: seq<FeedItem>, day: Time -> Time)
    requires Monotone(day) && NewestFirst(s)
    ensures ItemsOf(Groups(DayKeys(s, day), s, day)) == s
  {
    if |s| > 0 {
      var init := s[..|s| - 1];
      var x := s[|s| - 1];
      assert s == init + [x];
      assert NewestFirst(init);
      GroupsFlatten(init, day);
      if day(x.timestamp) in DayKeys(init, day) {
        FlattenSameDay(init, x, day);
      } else {
        FlattenNewDay(init, x, day);
      }
    }
  }

  /** In a newest-first list, the items of one day are already newest first. */
  lemma DayItemsSorted(s: seq<FeedItem>, day: Time -> Time, d: Time)
    requires NewestFirst(s)
    ensures DayItems(s, day, d) == Filter(s, OnDay(day, d))
  {
    assert SortedBy(s, Newest);
    FilterSorted(s, OnDay(day, d), Newest);
    SortBySorted(Filter(s, OnDay(day, d)), Newest);
  }

  /** The inductive step of `GroupsFlatten` when the last item opens a new day. */
  lemma FlattenNewDay(init: seq<FeedItem>, x: FeedItem, day: Time -> Time)
    requires NewestFirst(init + [x])
    requires day(x.timestamp) !in DayKeys(init, day)
    requires ItemsOf(Groups(DayKeys(init, day), init, day)) == init
    ensures ItemsOf(Groups(DayKeys(init + [x], day), init + [x], day)) == init + [x]
  {
    var s := init + [x];
    var d := day(x.timestamp);
    var k := DayKeys(init, day);
    assert s[..|s| - 1] == init;
    assert DayKeys(s, day) == k + [d];
    forall i | 0 <= i < |init|
      ensures !OnDay(day, d)(init[i])
    {
      assert init[i] in init;
    }
    FilterNone(init, OnDay(day, d));
    FilterAppend(init, [x], OnDay(day, d));
    assert [x][1..] == [];
    assert Filter(s, OnDay(day, d)) == [x];
    DayItemsSorted(s, day, d);
    GroupsSnocKey(k, d, s, day);
    GroupsOtherDay(k, init, x, day);
    ItemsOfSnoc(Groups(k, s, day), DayGroup(d, [x]));
  }

  lemma NewestFirstInit(init: seq<FeedItem>, x: FeedItem)
    requires NewestFirst(init + [x])
    ensures NewestFirst(init)
  {
    forall i, j | 0 <= i < j < |init|
      ensures init[i].timestamp >= init[j].timestamp
    {
      assert (init + [x])[i] == init[i] && (init + [x])[j] == init[j];
    }
  }

  /** In a newest-first list whose last item falls on a day already met, that
      day is the last one met. */
  lemma LastKeyIsDay(init: seq<FeedItem>, x: FeedItem, day: Time -> Time)
    requires Monotone(day) && NewestFirst(init + [x])
    requires day(x.timestamp) in DayKeys(init, day)
    ensures |DayKeys(init, day)| > 0 && DayKeys(init, day)[|DayKeys(init, day)| - 1] == day(x.timestamp)
  {
    var s := init + [x];
    var d := day(x.timestamp);
    var k := DayKeys(init, day);
    NewestFirstInit(init, x);
    DayKeysLast(init, day);
    var i :| 0 <= i < |init| && day(init[i].timestamp) == d;
    DaysNonIncreasing(s, day, i, |s| - 2);
    DaysNonIncreasing(s, day, |s| - 2, |s| - 1);
  }

  /** The inductive step of `GroupsFlatten` when the last item falls on the
      last day met so far. */
  lemma FlattenSameDay(init: seq<FeedItem>, x: FeedItem, day: Time -> Time)
    requires Monotone(day) && NewestFirst(init + [x])
    requires day(x.timestamp) in DayKeys(init, day)
    requires ItemsOf(Groups(DayKeys(init, day), init, day)) == init
    ensures ItemsOf(Groups(DayKeys(init + [x], day), init + [x], day)) == init + [x]
  {
    var s := init + [x];
    var d := day(x.timestamp);
    var k := DayKeys(init, day);
    assert s[..|s| - 1] == init;
    assert DayKeys(s, day) == k;
    LastKeyIsDay(init, x, day);
    DistinctLast(k);
    var front := k[..|k| - 1];
    NewestFirstInit(init, x);
    DayItemsSorted(s, day, d);
    DayItemsSorted(init, day, d);
    ExtendLastGroup(front, init, x, day);
  }

  /** Appending an item of the last group's day to a list that the groups
      spell out makes the groups spell out the longer list. */
  lemma ExtendLastGroup(front: seq<Time>, init: seq<FeedItem>, x: FeedItem, day: Time -> Time)
    requires day(x.timestamp) !in front
    requires DayItems(init + [x], day, day(x.timestamp)) == Filter(init + [x], OnDay(day, day(x.timestamp)))
    requires DayItems(init, day, day(x.timestamp)) == Filter(init, OnDay(day, day(x.timestamp)))
    requires ItemsOf(Groups(front + [day(x.timestamp)], init, day)) == init
    ensures ItemsOf(Groups(front + [day(x.timestamp)], init + [x], day)) == init + [x]
  {
    var d := day(x.timestamp);
    var s := init + [x];
    var a := Groups(front, init, day);
    var fi := Filter(init, OnDay(day, d));
    FilterSnoc(init, x, OnDay(day, d));
    GroupsSnocKey(front, d, init, day);
    assert Groups(front + [d], init, day) == a + [DayGroup(d, fi)];
    GroupsSnocKey(front, d, s, day);
    GroupsOtherDay(front, init, x, day);
    assert Groups(front + [d], s, day) == a + [DayGroup(d, fi + [x])];
    LastGroupSnoc(a, d, fi, x);
  }

  /** Appending to the last group appends to the items read off the groups. */
  lemma LastGroupSnoc(a: seq<DayGroup>, d: Time, items: seq<FeedItem>, x: FeedItem)
    ensures ItemsOf(a + [DayGroup(d, items + [x])]) == ItemsOf(a + [DayGroup(d, items)]) + [x]
  {
    ItemsOfSnoc(a, DayGroup(d, items));
    ItemsOfSnoc(a, DayGroup(d, items + [x]));
    assert ItemsOf(a) + (items + [x]) == (ItemsOf(a) + items) + [x];
  }

  /** Grouping the feed of the page and reading the groups in order gives
      the feed back. */
  lemma GroupByDayFlatten(s: seq<FeedItem>, day: Time -> Time)
    requires Monotone(day) && NewestFirst(s)
    ensures ItemsOf(GroupByDaySpec(s, day)) == s
  {
    DayKeysDescending(s, day);
    SortBySorted(DayKeys(s, day), NewestDay);
    GroupsFlatten(s, day);
  }

  /** The groups come newest day first, no day twice. */
  lemma GroupDaysDescending(s: seq<FeedItem>, day: Time -> Time)
    ensures var g := GroupByDaySpec(s, day);
      forall a, b :: 0 <= a < b < |g| ==> g[a].day > g[b].day
  {
    var keys := DayKeys(s, day);
    var sorted := SortBy(keys, NewestDay);
    DistinctPermutation(keys, sorted);
    var g := GroupByDaySpec(s, day);
    forall a, b | 0 <= a < b < |g|
      ensures g[a].day > g[b].day
    {
      assert sorted[a] != sorted[b];
    }
  }

  /** Every item of a group is an item of the feed and falls on the
      group's day. */
  lemma GroupItemsOnDay(s: seq<FeedItem>, day: Time -> Time, a: int, it: FeedItem)
    requires 0 <= a < |GroupByDaySpec(s, day)|
    requires it in GroupByDaySpec(s, day)[a].items
    ensures it in s && day(it.timestamp) == GroupByDaySpec(s, day)[a].day
  {
    var g := GroupByDaySpec(s, day)[a];
    var f := Filter(s, OnDay(day, g.day));
    GroupsAt(SortBy(DayKeys(s, day), NewestDay), s, day, a);
    assert g.items == SortBy(f, Newest);
    assert it in multiset(g.items);
    assert it in multiset(f);
    assert it in f;
  }

  /** Every item of the feed has a group for its day. */
  lemma EveryItemGrouped(s: seq<FeedItem>, day: Time -> Time, i: int)
    requires 0 <= i < |s|
    ensures exists a :: 0 <= a < |GroupByDaySpec(s, day)| && GroupByDaySpec(s, day)[a].day == day(s[i].timestamp)
  {
    var keys := DayKeys(s, day);
    var sorted := SortBy(keys, NewestDay);
    var g := GroupByDaySpec(s, day);
    var d := day(s[i].timestamp);
    assert d in keys;
    assert d in multiset(sorted);
    var a :| 0 <= a < |sorted| && sorted[a] == d;
    assert g[a].day == d;
  }

  /** The page's feed, grouped: the groups read in order give the feed back. */
  lemma FeedGroupsFlatten(st: Overlay, day: Time -> Time)
    requires Monotone(day)
    ensures ItemsOf(GroupByDaySpec(Feed(st), day)) == Feed(st)
  {
    FeedNewestFirst(st);
    GroupByDayFlatten(Feed(st), day);
  }
}
