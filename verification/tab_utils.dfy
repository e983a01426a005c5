/**
  `createTimeTabList`: the history sidebar's grouping of a user's tabs into
  Today, Yesterday, Last Week, Last Month and Older.

  Time is explicit: `clock.now` is the single current instant, `day` maps an
  instant to its calendar-day number in the local time zone, and
  `clock.weekAgo` / `clock.monthAgo` are the instants one week and one
  calendar month before now.
*/
module TabUtils {
  import opened Wrappers
  import opened Types
  import opened AppSidebar

  datatype Clock = Clock(now: Timestamp, weekAgo: Timestamp, monthAgo: Timestamp)

  datatype Bucket = Today | Yesterday | LastWeek | LastMonth | Older

  /** Position of a bucket in the output. */
  function Rank(b: Bucket): nat {
    match b
    case Today => 0
    case Yesterday => 1
    case LastWeek => 2
    case LastMonth => 3
    case Older => 4
  }

  function Title(b: Bucket): string {
    match b
    case Today => "Today"
    case Yesterday => "Yesterday"
    case LastWeek => "Last Week"
    case LastMonth => "Last Month"
    case Older => "Older"
  }

  /** The bucket a group title names, if any. */
  function TitleBucket(title: string): (r: Option<Bucket>)
    ensures forall b :: r == Some(b) <==> Title(b) == title
  {
    if title == "Today" then Some(Today)
    else if title == "Yesterday" then Some(Yesterday)
    else if title == "Last Week" then Some(LastWeek)
    else if title == "Last Month" then Some(LastMonth)
    else if title == "Older" then Some(Older)
    else None
  }

  /** `tab.updatedAt || new Date()`: a tab that was never updated counts as updated now. */
  function UpdatedAt(clock: Clock, t: Tab): Timestamp {
    t.updatedAt.GetOr(clock.now)
  }

  /**
    The test that admits an instant into a bucket when no earlier bucket did:
    same day as now, the day before, on or after the week threshold, on or
    after the month threshold, and anything at all.
  */
  predicate Admits(clock: Clock, day: Timestamp -> int, b: Bucket, d: Timestamp) {
    match b
    case Today => day(d) == day(clock.now)
    case Yesterday => day(d) == day(clock.now) - 1
    case LastWeek => d >= clock.weekAgo
    case LastMonth => d >= clock.monthAgo
    case Older => true
  }

  /** The `if … else if …` chain of the reducer. */
  function Classify(clock: Clock, day: Timestamp -> int, t: Tab): Bucket {
    var d := UpdatedAt(clock, t);
    if day(d) == day(clock.now) then Today
    else if day(d) == day(clock.now) - 1 then Yesterday
    else if d >= clock.weekAgo then LastWeek
    else if d >= clock.monthAgo then LastMonth
    else Older
  }

  /** A tab lands in the first bucket, in output order, whose test admits it. */
  lemma ClassifyIsFirstAdmitting(clock: Clock, day: Timestamp -> int, t: Tab, b: Bucket)
    ensures Classify(clock, day, t) == b <==>
      Admits(clock, day, b, UpdatedAt(clock, t))
      && forall b' :: Rank(b') < Rank(b) ==> !Admits(clock, day, b', UpdatedAt(clock, t))
  {
    var d := UpdatedAt(clock, t);
    if Classify(clock, day, t) != b && Admits(clock, day, b, d) {
      var e := Classify(clock, day, t);
      assert Rank(e) < Rank(b) && Admits(clock, day, e, d);
    }
  }

  /** A tab without `updatedAt` is always in Today. */
  lemma NeverUpdatedIsToday(clock: Clock, day: Timestamp -> int, t: Tab)
    requires t.updatedAt.None?
    ensures Classify(clock, day, t) == Today
  {
  }

  /** A tab dated on a later calendar day than now, but not before the week threshold, is in Last Week. */
  lemma FutureDayIsLastWeek(clock: Clock, day: Timestamp -> int, t: Tab)
    requires t.updatedAt.Some? && day(t.updatedAt.value) > day(clock.now)
    requires t.updatedAt.value >= clock.weekAgo
    ensures Classify(clock, day, t) == LastWeek
  {
  }

  /** The reducer's accumulator: one list per bucket, filled by `push`. */
  datatype Organized = Organized(
    today: seq<Tab>, yesterday: seq<Tab>, lastWeek: seq<Tab>, lastMonth: seq<Tab>, older: seq<Tab>)
  {
    function Get(b: Bucket): seq<Tab> {
      match b
      case Today => today
      case Yesterday => yesterday
      case LastWeek => lastWeek
      case LastMonth => lastMonth
      case Older => older
    }

    function Push(b: Bucket, t: Tab): Organized {
      match b
      case Today => this.(today := today + [t])
      case Yesterday => this.(yesterday := yesterday + [t])
      case LastWeek => this.(lastWeek := lastWeek + [t])
      case LastMonth => this.(lastMonth := lastMonth + [t])
      case Older => this.(older := older + [t])
    }
  }

  const NoTabs: Organized := Organized([], [], [], [], [])

  /** `tabList.reduce(…, {})`: tabs are visited left to right and pushed onto their bucket. */
  function Organize(clock: Clock, day: Timestamp -> int, tabs: seq<Tab>): Organized
    decreases |tabs|
  {
    if tabs == [] then NoTabs
    else
      var t := tabs[|tabs| - 1];
      Organize(clock, day, tabs[..|tabs| - 1]).Push(Classify(clock, day, t), t)
  }

  /** Reference definition: the tabs of bucket `b`, in input order. */
  function InBucket(clock: Clock, day: Timestamp -> int, tabs: seq<Tab>, b: Bucket): seq<Tab>
    decreases |tabs|
  {
    if tabs == [] then []
    else (if Classify(clock, day, tabs[0]) == b then [tabs[0]] else []) + InBucket(clock, day, tabs[1..], b)
  }

  lemma {:induction false} InBucketSnoc(clock: Clock, day: Timestamp -> int, tabs: seq<Tab>, t: Tab, b: Bucket)
    ensures InBucket(clock, day, tabs + [t], b) ==
      InBucket(clock, day, tabs, b) + (if Classify(clock, day, t) == b then [t] else [])
    decreases |tabs|
  {
    if tabs == [] {
      assert [t][1..] == [];
    } else {
      assert (tabs + [t])[1..] == tabs[1..] + [t];
      InBucketSnoc(clock, day, tabs[1..], t, b);
    }
  }

  /** The reducer is a stable partition: each bucket receives exactly its tabs, in input order. */
  lemma {:induction false} OrganizeIsStablePartition(clock: Clock, day: Timestamp -> int, tabs: seq<Tab>, b: Bucket)
    ensures Organize(clock, day, tabs).Get(b) == InBucket(clock, day, tabs, b)
    decreases |tabs|
  {
    if tabs != [] {
      var p := tabs[..|tabs| - 1];
      var t := tabs[|tabs| - 1];
      assert tabs == p + [t];
      OrganizeIsStablePartition(clock, day, p, b);
      InBucketSnoc(clock, day, p, t, b);
    }
  }

  /** Every tab of bucket `b` really belongs there, and every such input tab is in it. */
  lemma {:induction false} InBucketMembers(clock: Clock, day: Timestamp -> int, tabs: seq<Tab>, b: Bucket, t: Tab)
    ensures t in InBucket(clock, day, tabs, b) <==> t in tabs && Classify(clock, day, t) == b
    decreases |tabs|
  {
    if tabs != [] {
      InBucketMembers(clock, day, tabs[1..], b, t);
      assert tabs == [tabs[0]] + tabs[1..];
    }
  }

  function AllBuckets(clock: Clock, day: Timestamp -> int, tabs: seq<Tab>): multiset<Tab> {
    multiset(InBucket(clock, day, tabs, Today)) + multiset(InBucket(clock, day, tabs, Yesterday))
    + multiset(InBucket(clock, day, tabs, LastWeek)) + multiset(InBucket(clock, day, tabs, LastMonth))
    + multiset(InBucket(clock, day, tabs, Older))
  }

  /** Every input tab is in exactly one bucket: together the buckets hold the input, with multiplicity. */
  lemma {:induction false} BucketsPartitionInput(clock: Clock, day: Timestamp -> int, tabs: seq<Tab>)
    ensures AllBuckets(clock, day, tabs) == multiset(tabs)
    ensures |InBucket(clock, day, tabs, Today)| + |InBucket(clock, day, tabs, Yesterday)|
      + |InBucket(clock, day, tabs, LastWeek)| + |InBucket(clock, day, tabs, LastMonth)|
      + |InBucket(clock, day, tabs, Older)| == |tabs|
  {
    BucketsHoldInput(clock, day, tabs);
    MultisetSumSize(InBucket(clock, day, tabs, Today), InBucket(clock, day, tabs, Yesterday),
                    InBucket(clock, day, tabs, LastWeek), InBucket(clock, day, tabs, LastMonth),
                    InBucket(clock, day, tabs, Older));
  }

  /** The multiset half of the partition, by induction on the input. */
  lemma {:induction false} BucketsHoldInput(clock: Clock, day: Timestamp -> int, tabs: seq<Tab>)
    ensures AllBuckets(clock, day, tabs) == multiset(tabs)
    decreases |tabs|
  {
    if tabs != [] {
      var t, rest := tabs[0], tabs[1..];
      BucketsHoldInput(clock, day, rest);
      assert tabs == [t] + rest;
      var c := Classify(clock, day, t);
      var one := multiset{t};
      assert InBucket(clock, day, tabs, c) == [t] + InBucket(clock, day, rest, c);
      assert multiset(InBucket(clock, day, tabs, c)) == one + multiset(InBucket(clock, day, rest, c));
      forall b | b != c ensures InBucket(clock, day, tabs, b) == InBucket(clock, day, rest, b) { }
    }
  }

  /** A multiset built from sequences is as large as their lengths together. */
  lemma MultisetSumSize<T>(a: seq<T>, b: seq<T>, c: seq<T>, d: seq<T>, e: seq<T>)
    ensures |multiset(a) + multiset(b) + multiset(c) + multiset(d) + multiset(e)| == |a| + |b| + |c| + |d| + |e|
  {
  }

  /** The url of a history item: Today's items use a bare query string, the others a `/product` path. */
  function ItemUrl(b: Bucket, id: string): string {
    if b == Today then "?id=" + id else "/product?id=" + id
  }

  function ToItem(b: Bucket, t: Tab): SidebarItem {
    SidebarItem(Some(t.id), t.title, ItemUrl(b, t.id), Some(t.userId), Some(t.description),
                Some(false), t.updatedAt, None)
  }

  /** A group entry: title, url "#", and one item per tab. */
  function Group(b: Bucket, ts: seq<Tab>): SidebarItem {
    SidebarItem(None, Title(b), "#", None, None, None, None,
                Some(seq(|ts|, j requires 0 <= j < |ts| => ToItem(b, ts[j]))))
  }

  /** `.filter((group) => group.items.length > 0)` */
  function NonEmptyGroups(gs: seq<SidebarItem>): seq<SidebarItem>
    decreases |gs|
  {
    if gs == [] then []
    else (if |Children(gs[0])| > 0 then [gs[0]] else []) + NonEmptyGroups(gs[1..])
  }

  /** `createTimeTabList(tabList, selectedId)`; `selectedId` is accepted and never read. */
  function CreateTimeTabList(tabs: seq<Tab>, selectedId: string, clock: Clock, day: Timestamp -> int): seq<SidebarItem> {
    var o := Organize(clock, day, tabs);
    NonEmptyGroups([Group(Today, o.today), Group(Yesterday, o.yesterday), Group(LastWeek, o.lastWeek),
                    Group(LastMonth, o.lastMonth), Group(Older, o.older)])
  }

  // ---- proof of the output shape ----

  function GroupsFor(o: Organized, bs: seq<Bucket>): seq<SidebarItem> {
    seq(|bs|, k requires 0 <= k < |bs| => Group(bs[k], o.Get(bs[k])))
  }

  /** The buckets of `bs` that hold at least one tab, in the order of `bs`. */
  function Present(o: Organized, bs: seq<Bucket>): seq<Bucket>
    decreases |bs|
  {
    if bs == [] then []
    else (if |o.Get(bs[0])| > 0 then [bs[0]] else []) + Present(o, bs[1..])
  }

  lemma {:induction false} FilterGroupsIsPresent(o: Organized, bs: seq<Bucket>)
    ensures NonEmptyGroups(GroupsFor(o, bs)) == GroupsFor(o, Present(o, bs))
    decreases |bs|
  {
    if bs != [] {
      var gs := GroupsFor(o, bs);
      assert gs[1..] == GroupsFor(o, bs[1..]);
      assert |Children(gs[0])| == |o.Get(bs[0])|;
      FilterGroupsIsPresent(o, bs[1..]);
      var rest := Present(o, bs[1..]);
      if |o.Get(bs[0])| > 0 {
        assert GroupsFor(o, [bs[0]] + rest) == [gs[0]] + GroupsFor(o, rest);
      }
    }
  }

  predicate RankIncreasing(bs: seq<Bucket>) {
    forall i, j | 0 <= i < j < |bs| :: Rank(bs[i]) < Rank(bs[j])
  }

  lemma {:induction false} PresentShape(o: Organized, bs: seq<Bucket>)
    requires RankIncreasing(bs)
    ensures RankIncreasing(Present(o, bs))
    ensures forall b :: b in Present(o, bs) <==> b in bs && |o.Get(b)| > 0
    decreases |bs|
  {
    if bs != [] {
      PresentShape(o, bs[1..]);
      var rest := Present(o, bs[1..]);
      forall b | b in rest ensures Rank(bs[0]) < Rank(b) {
        var i :| 0 <= i < |bs[1..]| && bs[1..][i] == b;
        assert bs[i + 1] == b;
      }
      assert bs == [bs[0]] + bs[1..];
      if |o.Get(bs[0])| > 0 {
        var p := [bs[0]] + rest;
        forall i, j | 0 <= i < j < |p| ensures Rank(p[i]) < Rank(p[j]) {
          if i > 0 { assert p[i] == rest[i - 1] && p[j] == rest[j - 1]; }
          else { assert p[j] == rest[j - 1] && p[j] in rest; }
        }
      }
    }
  }

  const Order: seq<Bucket> := [Today, Yesterday, LastWeek, LastMonth, Older]

  lemma CreateTimeTabListIsPresentGroups(tabs: seq<Tab>, selectedId: string, clock: Clock, day: Timestamp -> int)
    ensures var o := Organize(clock, day, tabs);
      CreateTimeTabList(tabs, selectedId, clock, day) == GroupsFor(o, Present(o, Order))
  {
    var o := Organize(clock, day, tabs);
    assert [Group(Today, o.today), Group(Yesterday, o.yesterday), Group(LastWeek, o.lastWeek),
            Group(LastMonth, o.lastMonth), Group(Older, o.older)] == GroupsFor(o, Order);
    FilterGroupsIsPresent(o, Order);
  }

  /** Every field of a history item, as built from tab `t` in bucket `b`. */
  predicate IsItemFor(item: SidebarItem, b: Bucket, t: Tab) {
    && item.id == Some(t.id)
    && item.title == t.title
    && item.userId == Some(t.userId)
    && item.description == Some(t.description)
    && item.updatedAt == t.updatedAt
    && item.isActive == Some(false)
    && item.items.None?
    && item.url == (if b == Today then "?id=" + t.id else "/product?id=" + t.id)
  }

  /** A group entry for bucket `b` holding one history item per tab of `ts`, in order. */
  predicate IsGroupFor(g: SidebarItem, b: Bucket, ts: seq<Tab>) {
    && g.title == Title(b) && g.url == "#" && g.id.None? && g.isActive.None? && g.items.Some?
    && |g.items.value| == |ts|
    && forall j | 0 <= j < |ts| :: IsItemFor(g.items.value[j], b, ts[j])
  }

  lemma GroupIsGroupFor(b: Bucket, ts: seq<Tab>)
    ensures IsGroupFor(Group(b, ts), b, ts)
  {
  }

  /** The buckets, in output order, named by the groups of the history list. */
  function Buckets(r: seq<SidebarItem>): seq<Bucket>
    requires forall k | 0 <= k < |r| :: TitleBucket(r[k].title).Some?
  {
    seq(|r|, k requires 0 <= k < |r| => TitleBucket(r[k].title).value)
  }

  lemma HistoryIsPresentBuckets(tabs: seq<Tab>, selectedId: string, clock: Clock, day: Timestamp -> int)
    ensures var r := CreateTimeTabList(tabs, selectedId, clock, day);
      var o := Organize(clock, day, tabs);
      var p := Present(o, Order);
      |r| == |p| && forall k | 0 <= k < |r| :: IsGroupFor(r[k], p[k], InBucket(clock, day, tabs, p[k])) && p[k] in p
  {
    var r := CreateTimeTabList(tabs, selectedId, clock, day);
    var o := Organize(clock, day, tabs);
    var p := Present(o, Order);
    CreateTimeTabListIsPresentGroups(tabs, selectedId, clock, day);
    forall k | 0 <= k < |r| ensures IsGroupFor(r[k], p[k], InBucket(clock, day, tabs, p[k])) {
      OrganizeIsStablePartition(clock, day, tabs, p[k]);
      GroupIsGroupFor(p[k], o.Get(p[k]));
    }
  }

  lemma OrderIsIncreasing()
    ensures RankIncreasing(Order)
  {
  }

  lemma OrderHasEveryBucket(b: Bucket)
    ensures b in Order
  {
    assert Order[Rank(b)] == b;
  }

  lemma HistoryBuckets(tabs: seq<Tab>, selectedId: string, clock: Clock, day: Timestamp -> int)
    ensures var r := CreateTimeTabList(tabs, selectedId, clock, day);
      (forall k | 0 <= k < |r| :: TitleBucket(r[k].title).Some?)
      && Buckets(r) == Present(Organize(clock, day, tabs), Order)
  {
    var r := CreateTimeTabList(tabs, selectedId, clock, day);
    var p := Present(Organize(clock, day, tabs), Order);
    HistoryIsPresentBuckets(tabs, selectedId, clock, day);
    forall k | 0 <= k < |r| ensures TitleBucket(r[k].title) == Some(p[k]) {
    }
    assert Buckets(r) == p;
  }

  lemma PresentOrder(tabs: seq<Tab>, clock: Clock, day: Timestamp -> int)
    ensures var p := Present(Organize(clock, day, tabs), Order);
      && RankIncreasing(p)
      && forall b :: |InBucket(clock, day, tabs, b)| > 0 <==> b in p
  {
    var o := Organize(clock, day, tabs);
    var p := Present(o, Order);
    OrderIsIncreasing();
    PresentShape(o, Order);
    forall b ensures |InBucket(clock, day, tabs, b)| > 0 <==> b in p {
      OrganizeIsStablePartition(clock, day, tabs, b);
      OrderHasEveryBucket(b);
    }
  }

  /**
    The shape of the history list: every group is the group of one bucket that
    holds at least one tab, with url "#" and one inactive item per tab of that
    bucket in input order; the groups follow the order Today, Yesterday, Last
    Week, Last Month, Older; a bucket has a group exactly when it holds a tab;
    an empty tab list gives an empty history; and `selectedId` has no influence.
  */
  lemma CreateTimeTabListSpec(tabs: seq<Tab>, selectedId: string, clock: Clock, day: Timestamp -> int)
    ensures var r := CreateTimeTabList(tabs, selectedId, clock, day);
      && r == CreateTimeTabList(tabs, "", clock, day)
      && (forall k | 0 <= k < |r| :: TitleBucket(r[k].title).Some?)
      && (forall k | 0 <= k < |r| ::
            IsGroupFor(r[k], Buckets(r)[k], InBucket(clock, day, tabs, Buckets(r)[k]))
            && |InBucket(clock, day, tabs, Buckets(r)[k])| > 0)
      && RankIncreasing(Buckets(r))
      && (forall b :: |InBucket(clock, day, tabs, b)| > 0 <==> b in Buckets(r))
      && (tabs == [] ==> r == [])
  {
    var r := CreateTimeTabList(tabs, selectedId, clock, day);
    var p := Present(Organize(clock, day, tabs), Order);
    CreateTimeTabListIsPresentGroups(tabs, selectedId, clock, day);
    CreateTimeTabListIsPresentGroups(tabs, "", clock, day);
    HistoryIsPresentBuckets(tabs, selectedId, clock, day);
    HistoryBuckets(tabs, selectedId, clock, day);
    PresentOrder(tabs, clock, day);
    forall k | 0 <= k < |r| ensures |InBucket(clock, day, tabs, p[k])| > 0 {
      assert p[k] in p;
    }
    if tabs == [] {
      forall b ensures b !in p { }
      assert |p| > 0 ==> p[0] in p;
    }
  }

  /** A freshly built history has no active item. */
  lemma HistoryStartsInactive(tabs: seq<Tab>, selectedId: string, clock: Clock, day: Timestamp -> int)
    ensures var r := CreateTimeTabList(tabs, selectedId, clock, day);
      forall k, j | IsChild(r, k, j) :: r[k].items.value[j].isActive == Some(false)
  {
    var r := CreateTimeTabList(tabs, selectedId, clock, day);
    CreateTimeTabListSpec(tabs, selectedId, clock, day);
    forall k, j | IsChild(r, k, j) ensures r[k].items.value[j].isActive == Some(false) {
      var b := Buckets(r)[k];
      assert IsGroupFor(r[k], b, InBucket(clock, day, tabs, b));
      assert IsItemFor(r[k].items.value[j], b, InBucket(clock, day, tabs, b)[j]);
    }
  }
}
