/**
  The history sidebar's item tree and its selection rule (`handleSelect`): the
  clicked child becomes active and every child, in every group, whose id differs
  from the clicked one is deactivated.
*/
module AppSidebar {
  import opened Wrappers
  import opened Types

  /**
    `SidebarItemProps`. Groups and their children share the shape; `isActive`
    is optional because the history groups are built without it, and
    `updatedAt` is the field the history builder actually sets.
  */
  datatype SidebarItem = SidebarItem(
    id: Option<string>,
    title: string,
    url: string,
    userId: Option<string>,
    description: Option<string>,
    isActive: Option<bool>,
    updatedAt: Option<Timestamp>,
    items: Option<seq<SidebarItem>>)

  /** `parent.items ?? []` */
  function Children(parent: SidebarItem): seq<SidebarItem> {
    parent.items.GetOr([])
  }

  /** `(group, child)` names a rendered child: the only thing the sidebar lets a user click. */
  predicate IsChild(groups: seq<SidebarItem>, g: int, c: int) {
    0 <= g < |groups| && groups[g].items.Some? && 0 <= c < |groups[g].items.value|
  }

  /** What a selection produces: the updated tree and the calls made to `onSelect`. */
  datatype Selection = Selection(groups: seq<SidebarItem>, notified: seq<SidebarItem>)

  /** The inner loop body: a child whose id differs from `selectedId` is made inactive. */
  function Deactivate(child: SidebarItem, selectedId: Option<string>): SidebarItem {
    if child.id != selectedId then child.(isActive := Some(false)) else child
  }

  function DeactivateGroup(parent: SidebarItem, selectedId: Option<string>): SidebarItem {
    match parent.items
    case None => parent
    case Some(cs) =>
      parent.(items := Some(seq(|cs|, j requires 0 <= j < |cs| => Deactivate(cs[j], selectedId))))
  }

  /**
    `handleSelect(item)` for the child at `(g, c)`: the child is set active,
    every child whose id differs is reset, then `onSelect` (when `hasOnSelect`)
    receives the selected child once.
  */
  function HandleSelect(groups: seq<SidebarItem>, g: int, c: int, hasOnSelect: bool): (r: Selection)
    requires IsChild(groups, g, c)
    ensures |r.groups| == |groups|
    ensures IsChild(r.groups, g, c) && r.groups[g].items.value[c].isActive == Some(true)
    // group-level entries keep everything but their children's flags, and the children's count and order
    ensures forall k | 0 <= k < |groups| ::
      r.groups[k].(items := groups[k].items) == groups[k]
      && r.groups[k].items.Some? == groups[k].items.Some?
      && |Children(r.groups[k])| == |Children(groups[k])|
    ensures forall k, j | 0 <= k < |groups| && 0 <= j < |Children(groups[k])| ::
      var before := Children(groups[k])[j];
      var after := Children(r.groups[k])[j];
      && after.(isActive := before.isActive) == before
      && (before.id != groups[g].items.value[c].id ==> after.isActive == Some(false))
      && (before.id == groups[g].items.value[c].id && (k, j) != (g, c) ==> after.isActive == before.isActive)
    ensures r.notified == if hasOnSelect then [r.groups[g].items.value[c]] else []
  {
    var cs := groups[g].items.value;
    var selected := cs[c].(isActive := Some(true));
    var marked := groups[g := groups[g].(items := Some(cs[c := selected]))];
    var updated := seq(|marked|, k requires 0 <= k < |marked| => DeactivateGroup(marked[k], selected.id));
    Selection(updated, if hasOnSelect then [selected] else [])
  }

  predicate IsActiveChild(groups: seq<SidebarItem>, k: int, j: int) {
    IsChild(groups, k, j) && groups[k].items.value[j].isActive == Some(true)
  }

  /** No two children, anywhere in the tree, share an id. */
  ghost predicate UniqueChildIds(groups: seq<SidebarItem>) {
    forall k, j, k', j' | IsChild(groups, k, j) && IsChild(groups, k', j') && (k, j) != (k', j') ::
      groups[k].items.value[j].id != groups[k'].items.value[j'].id
  }

  /** With unique child ids, the selected child is the one and only active child after a selection. */
  lemma SelectLeavesOneActive(groups: seq<SidebarItem>, g: int, c: int, hasOnSelect: bool)
    requires IsChild(groups, g, c)
    requires UniqueChildIds(groups)
    ensures var r := HandleSelect(groups, g, c, hasOnSelect).groups;
      IsActiveChild(r, g, c)
      && forall k, j | IsActiveChild(r, k, j) :: k == g && j == c
  {
    var r := HandleSelect(groups, g, c, hasOnSelect).groups;
    forall k, j | IsChild(r, k, j) && (k, j) != (g, c) ensures r[k].items.value[j].isActive == Some(false) {
      assert Children(groups[k])[j] == groups[k].items.value[j];
      assert IsChild(groups, k, j);
      assert groups[k].items.value[j].id != groups[g].items.value[c].id;
    }
  }
}
