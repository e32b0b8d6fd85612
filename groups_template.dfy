/**
 * The groups loop of `BP_Groups_Template`: the counts its constructor derives from
 * the fetched page of groups, the page count of its pagination, and the cursor
 * (`current_group`, `group`, `in_the_loop`) that `has_groups`, `next_group`,
 * `rewind_groups`, `groups` and `the_group` move through the page.
 */
module GroupsTemplate {
  import opened Wrappers

  /** A group as the loop sees it; an `id` of 0 is PHP-empty (no such group). */
  datatype Group = Group(id: nat, name: string)

  /** What `groups_get_groups` or `groups_get_invites_for_user` returned:
      one page of groups and the total number of matching groups. */
  datatype Page = Page(groups: seq<Group>, total: nat)

  /** `ceil(a / b)` on naturals. */
  function CeilDiv(a: nat, b: nat): (q: nat)
    requires b > 0
    ensures q * b >= a
    ensures q == 0 || (q - 1) * b < a
  {
    (a + b - 1) / b
  }

  /** `total_group_count` as the constructor sets it; `max` of 0 stands for an
      empty (`false`) `max`. */
  function TotalGroupCount(kind: string, page: Page, single: Group, max: nat): (n: nat)
    ensures kind == "invites" ==> n == page.total
    ensures kind == "single-group" ==> (n == 1 <==> single.id != 0) && n <= 1
    ensures kind != "invites" && kind != "single-group" ==>
      n <= page.total && (max != 0 ==> n <= max) && (n == page.total || n == max)
    ensures kind != "invites" && kind != "single-group" && (max == 0 || max >= page.total) ==>
      n == page.total
  {
    if kind == "invites" then page.total
    else if kind == "single-group" then (if single.id == 0 then 0 else 1)
    else if max == 0 || max >= page.total then page.total
    else max
  }

  /** The groups the loop walks: the fetched page, or the single group. */
  function LoopGroups(kind: string, page: Page, single: Group): (gs: seq<Group>)
    ensures kind == "single-group" ==> gs == [single]
    ensures kind != "single-group" ==> gs == page.groups
  {
    if kind == "single-group" then [single] else page.groups
  }

  /** `group_count` as the constructor sets it. */
  function GroupCount(kind: string, page: Page, single: Group, max: nat): (n: nat)
    ensures kind == "invites" ==> n == page.total
    ensures kind == "single-group" ==> (n == 1 <==> single.id != 0) && n <= 1
    ensures kind != "invites" && kind != "single-group" ==>
      n <= |page.groups| && (max != 0 ==> n <= max) && (n == |page.groups| || n == max)
    ensures kind != "invites" && kind != "single-group" && max == 0 ==> n == |page.groups|
  {
    if kind == "invites" then page.total
    else if kind == "single-group" then (if single.id == 0 then 0 else 1)
    else if max != 0 then (if max >= |page.groups| then |page.groups| else max)
    else |page.groups|
  }

  /** Except for invitations, the loop never counts more groups than it holds. */
  lemma GroupCountWithinLoop(kind: string, page: Page, single: Group, max: nat)
    requires kind != "invites"
    ensures GroupCount(kind, page, single, max) <= |LoopGroups(kind, page, single)|
  {
  }

  /** The number of pagination pages, computed only when both the total and the
      page size are non-zero. */
  function PageCount(totalGroupCount: nat, pagNum: nat): (r: Option<nat>)
    ensures r.Some? <==> totalGroupCount != 0 && pagNum != 0
    ensures r.Some? ==> r.value * pagNum >= totalGroupCount > (r.value - 1) * pagNum
  {
    if totalGroupCount != 0 && pagNum != 0 then Some(CeilDiv(totalGroupCount, pagNum)) else None
  }

  class GroupsLoop {
    var currentGroup: int
    var groupCount: nat
    var groups: seq<Group>
    /** The group at the cursor; `None` where PHP reads past the end of the page. */
    var group: Option<Group>
    var inTheLoop: bool
    var totalGroupCount: nat
    var pagNum: nat
    var pagPage: nat
    /** `ceil(total_group_count / pag_num)` handed to the pagination links. */
    var pageCount: Option<nat>
    var singleGroup: bool

    /** The count computation of the constructor, with the fetched page (or the
        single current group) given. */
    constructor (kind: string, page: Page, single: Group, max: nat, pagNum: nat, pagPage: nat)
      ensures currentGroup == -1 && group == None && !inTheLoop
      ensures this.pagNum == pagNum && this.pagPage == pagPage
      ensures singleGroup == (kind == "single-group")
      ensures groups == LoopGroups(kind, page, single)
      ensures totalGroupCount == TotalGroupCount(kind, page, single, max)
      ensures groupCount == GroupCount(kind, page, single, max)
      ensures pageCount == PageCount(totalGroupCount, pagNum)
    {
      currentGroup := -1;
      group := None;
      inTheLoop := false;
      this.pagNum := pagNum;
      this.pagPage := pagPage;
      singleGroup := kind == "single-group";
      groups := LoopGroups(kind, page, single);
      if kind == "invites" {
        totalGroupCount := page.total;
        groupCount := page.total;
      } else if kind == "single-group" {
        if single.id == 0 {
          totalGroupCount := 0;
          groupCount := 0;
        } else {
          totalGroupCount := 1;
          groupCount := 1;
        }
      } else {
        if max == 0 || max >= page.total {
          totalGroupCount := page.total;
        } else {
          totalGroupCount := max;
        }
        if max != 0 {
          if max >= |page.groups| {
            groupCount := |page.groups|;
          } else {
            groupCount := max;
          }
        } else {
          groupCount := |page.groups|;
        }
      }
      new;
      if totalGroupCount != 0 && pagNum != 0 {
        pageCount := Some(CeilDiv(totalGroupCount, pagNum));
      } else {
        pageCount := None;
      }
    }

    /** The group at index `i` of the page, or `None` past either end. */
    function At(i: int): (g: Option<Group>)
      reads this
      ensures g.Some? <==> 0 <= i < |groups|
      ensures g.Some? ==> g.value == groups[i]
    {
      if 0 <= i < |groups| then Some(groups[i]) else None
    }

    method HasGroups() returns (b: bool)
      ensures b <==> groupCount != 0
    {
      b := groupCount != 0;
    }

    /** Advances the cursor by one and loads the group there. */
    method NextGroup() returns (g: Option<Group>)
      modifies this
      ensures currentGroup == old(currentGroup) + 1
      ensures group == At(currentGroup) && g == group
      ensures inTheLoop == old(inTheLoop)
      ensures groups == old(groups) && groupCount == old(groupCount)
      ensures totalGroupCount == old(totalGroupCount) && pageCount == old(pageCount)
      ensures pagNum == old(pagNum) && pagPage == old(pagPage) && singleGroup == old(singleGroup)
    {
      currentGroup := currentGroup + 1;
      group := At(currentGroup);
      g := group;
    }

    /** Puts the cursor before the first group; the first group is loaded only
        when the loop counts any. */
    method RewindGroups()
      modifies this
      ensures currentGroup == -1
      ensures group == if groupCount > 0 then At(0) else old(group)
      ensures inTheLoop == old(inTheLoop)
      ensures groups == old(groups) && groupCount == old(groupCount)
      ensures totalGroupCount == old(totalGroupCount) && pageCount == old(pageCount)
      ensures pagNum == old(pagNum) && pagPage == old(pagPage) && singleGroup == old(singleGroup)
    {
      currentGroup := -1;
      if groupCount > 0 {
        group := At(0);
      }
    }

    /** Whether another group is left; reaching the end rewinds the cursor, and
        every `false` answer leaves the loop. */
    method Groups() returns (more: bool)
      modifies this
      ensures more <==> old(currentGroup) + 1 < groupCount
      ensures more ==> currentGroup == old(currentGroup) && group == old(group) && inTheLoop == old(inTheLoop)
      ensures !more ==> !inTheLoop
      ensures !more && old(currentGroup) + 1 == groupCount ==>
        currentGroup == -1 && group == (if groupCount > 0 then At(0) else old(group))
      ensures !more && old(currentGroup) + 1 != groupCount ==>
        currentGroup == old(currentGroup) && group == old(group)
      ensures groups == old(groups) && groupCount == old(groupCount)
      ensures totalGroupCount == old(totalGroupCount) && pageCount == old(pageCount)
      ensures pagNum == old(pagNum) && pagPage == old(pagPage) && singleGroup == old(singleGroup)
    {
      if currentGroup + 1 < groupCount {
        return true;
      } else if currentGroup + 1 == groupCount {
        RewindGroups();
      }
      inTheLoop := false;
      more := false;
    }

    /** Enters the loop body for the next group. */
    method TheGroup()
      modifies this
      ensures inTheLoop
      ensures currentGroup == old(currentGroup) + 1
      ensures group == At(currentGroup)
      ensures groups == old(groups) && groupCount == old(groupCount)
      ensures totalGroupCount == old(totalGroupCount) && pageCount == old(pageCount)
      ensures pagNum == old(pagNum) && pagPage == old(pagPage) && singleGroup == old(singleGroup)
    {
      inTheLoop := true;
      var g := NextGroup();
      group := g;
    }

    /** The template loop `while ( bp_groups() ) { bp_the_group(); ... }` from a
        rewound cursor: it visits the first `group_count` groups in order, one per
        pass, and ends rewound and outside the loop. */
    method RunLoop() returns (visited: seq<Option<Group>>)
      requires currentGroup == -1
      modifies this
      ensures |visited| == groupCount
      ensures forall i :: 0 <= i < |visited| ==> visited[i] == At(i)
      ensures groupCount <= |groups| ==> forall i :: 0 <= i < |visited| ==> visited[i] == Some(groups[i])
      ensures currentGroup == -1 && !inTheLoop
      ensures groups == old(groups) && groupCount == old(groupCount)
      ensures totalGroupCount == old(totalGroupCount) && pageCount == old(pageCount)
    {
      visited := [];
      var more := Groups();
      while more
        invariant groups == old(groups) && groupCount == old(groupCount)
        invariant totalGroupCount == old(totalGroupCount) && pageCount == old(pageCount)
        invariant more ==> currentGroup + 1 < groupCount
        invariant !more ==> currentGroup == -1 && !inTheLoop
        invariant more ==> |visited| == currentGroup + 1
        invariant !more ==> |visited| == groupCount
        invariant forall i :: 0 <= i < |visited| ==> visited[i] == At(i)
        decreases if more then groupCount - currentGroup else 0
      {
        TheGroup();
        visited := visited + [group];
        more := Groups();
      }
    }
  }
}
