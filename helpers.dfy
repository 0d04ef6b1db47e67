/** Node import filtering: the groups selected in the entry's options, or
    every group of the hub, and the duplicate-free list of their nodes in
    order of first occurrence. */
module Helpers {
  import opened Wrappers
  import opened Homee
  import Text

  /** The hub's group lookup by id: the first group with that id. */
  function GetGroupById(groups: seq<Group>, id: int): (r: Option<Group>)
    ensures r.Some? <==> exists g :: g in groups && g.id == id
    ensures r.Some? ==> r.value in groups && r.value.id == id
  {
    if |groups| == 0 then None
    else if groups[0].id == id then Some(groups[0])
    else
      assert forall g :: g in groups ==> g == groups[0] || g in groups[1..];
      GetGroupById(groups[1..], id)
  }

  /** all_groups: the decimal ids of the hub's groups, in hub order. */
  function AllGroupIds(groups: seq<Group>): (r: seq<string>)
    ensures |r| == |groups|
    ensures forall i :: 0 <= i < |groups| ==> Text.ParseInt(r[i]) == Some(groups[i].id)
  {
    var r := seq(|groups|, i requires 0 <= i < |groups| => Text.IntToString(groups[i].id));
    assert forall i :: 0 <= i < |groups| ==> Text.ParseInt(r[i]) == Some(groups[i].id) by {
      forall i | 0 <= i < |groups| {
        Text.ParseIntOfIntToString(groups[i].id);
      }
    }
    r
  }

  /** The group list the comprehension builds: each configured id string
      converted to an integer and looked up; a string that is not an integer
      raises ValueError. */
  function ResolveGroups(hubGroups: seq<Group>, ids: seq<string>): (r: Result<seq<Option<Group>>, Fault>)
    ensures r.Failure? <==> exists s :: s in ids && Text.ParseInt(s).None?
    ensures r.Failure? ==> r.error == ValueError
    ensures r.Success? ==> |r.value| == |ids|
    ensures r.Success? ==>
              forall i :: 0 <= i < |ids| ==> r.value[i] == GetGroupById(hubGroups, Text.ParseInt(ids[i]).value)
  {
    if |ids| == 0 then Success([])
    else
      var front := ids[..|ids| - 1];
      var last := ids[|ids| - 1];
      assert forall s :: s in ids <==> s in front || s == last;
      match ResolveGroups(hubGroups, front)
      case Failure(e) => Failure(e)
      case Success(gs) =>
        match Text.ParseInt(last)
        case None => Failure(ValueError)
        case Some(id) => Success(gs + [GetGroupById(hubGroups, id)])
  }

  /** The nodes of a list of groups, group after group. */
  function Flatten(groups: seq<Group>): seq<Node> {
    if |groups| == 0 then [] else Flatten(groups[..|groups| - 1]) + groups[|groups| - 1].nodes
  }

  /** A node is in the flattened list exactly when one of the groups has it. */
  lemma {:induction false} FlattenMembers(groups: seq<Group>)
    ensures forall n :: n in Flatten(groups) <==> exists g :: g in groups && n in g.nodes
  {
    if |groups| > 0 {
      var front := groups[..|groups| - 1];
      var last := groups[|groups| - 1];
      FlattenMembers(front);
      assert forall g :: g in groups <==> g in front || g == last;
    }
  }

  predicate NoDuplicates(s: seq<Node>) {
    forall i, j :: 0 <= i < j < |s| ==> s[i] != s[j]
  }

  /** A list with every later occurrence of an element removed. */
  function Dedup(s: seq<Node>): (r: seq<Node>)
    ensures |r| <= |s|
  {
    if |s| == 0 then []
    else
      var front := s[..|s| - 1];
      var last := s[|s| - 1];
      Dedup(front) + if last in front then [] else [last]
  }

  /** Dedup keeps every element, and only once. */
  lemma {:induction false} DedupMembers(s: seq<Node>)
    ensures forall n :: n in Dedup(s) <==> n in s
    ensures NoDuplicates(Dedup(s))
  {
    if |s| > 0 {
      var front := s[..|s| - 1];
      var last := s[|s| - 1];
      DedupMembers(front);
      assert forall n :: n in s <==> n in front || n == last;
    }
  }

  /** The index of the first occurrence of an element. */
  function FirstIndex(s: seq<Node>, n: Node): (i: nat)
    requires n in s
    ensures i < |s| && s[i] == n && n !in s[..i]
  {
    var front := s[..|s| - 1];
    if n in front then
      var i := FirstIndex(front, n);
      assert s[..i] == front[..i];
      i
    else |s| - 1
  }

  /** The selected groups of a resolved list, when all ids were found. */
  function Found(gs: seq<Option<Group>>, k: nat): seq<Group>
    requires k <= |gs|
    requires forall i :: 0 <= i < k ==> gs[i].Some?
  {
    seq(k, i requires 0 <= i < k => gs[i].value)
  }

  /** The nodes of the resolved groups without repeats; an id with no
      group fails when its nodes are read. */
  function NodesOf(gs: seq<Option<Group>>): (r: Result<seq<Node>, Fault>)
    ensures r.Failure? <==> exists i :: 0 <= i < |gs| && gs[i].None?
  {
    if exists i :: 0 <= i < |gs| && gs[i].None? then Failure(NoneGroup)
    else Success(Dedup(Flatten(Found(gs, |gs|))))
  }

  /** The group id strings get_imported_nodes resolves. */
  function SelectedIds(hubGroups: seq<Group>, options: EntryOptions): seq<string> {
    if options.groups.Some? then options.groups.value else AllGroupIds(hubGroups)
  }

  /** get_imported_nodes, as a value: the configured group ids, or the ids
      of all hub groups when none are configured; a ValueError for an id
      that is not an integer; a failure for an id with no group; otherwise
      the nodes of the groups without repeats. */
  function ImportedNodes(hubGroups: seq<Group>, options: EntryOptions): Result<seq<Node>, Fault> {
    match ResolveGroups(hubGroups, SelectedIds(hubGroups, options))
    case Failure(e) => Failure(e)
    case Success(gs) => NodesOf(gs)
  }

  /** get_imported_nodes: resolve the selected ids, then walk the groups. */
  method GetImportedNodes(hubGroups: seq<Group>, options: EntryOptions) returns (r: Result<seq<Node>, Fault>)
    ensures r == ImportedNodes(hubGroups, options)
  {
    var allGroups := AllGroupIds(hubGroups);
    var ids := if options.groups.Some? then options.groups.value else allGroups;
    var resolved := ResolveGroups(hubGroups, ids);
    if resolved.Failure? {
      return Failure(resolved.error);
    }
    r := CollectNodes(resolved.value);
  }

  /** The nested loops of get_imported_nodes: each group's nodes in turn,
      appending a node only when it is not in the list yet. */
  method CollectNodes(groups: seq<Option<Group>>) returns (r: Result<seq<Node>, Fault>)
    ensures r == NodesOf(groups)
  {
    var nodes: seq<Node> := [];
    for i := 0 to |groups|
      invariant forall k :: 0 <= k < i ==> groups[k].Some?
      invariant nodes == Dedup(Flatten(Found(groups, i)))
    {
      if groups[i].None? {
        return Failure(NoneGroup);
      }
      FlattenStep(groups, i);
      nodes := AppendNewNodes(Flatten(Found(groups, i)), nodes, groups[i].value.nodes);
    }
    return Success(nodes);
  }

  /** The inner loop of get_imported_nodes: append each node of a group
      that is not in the list yet. */
  method AppendNewNodes(ghost seen: seq<Node>, nodes: seq<Node>, more: seq<Node>) returns (r: seq<Node>)
    requires nodes == Dedup(seen)
    ensures r == Dedup(seen + more)
  {
    r := nodes;
    ghost var acc := seen;
    for j := 0 to |more|
      invariant acc == seen + more[..j]
      invariant r == Dedup(acc)
    {
      var n := more[j];
      DedupAppend(acc, n);
      if n !in r {
        r := r + [n];
      }
      acc := acc + [n];
      assert more[..j + 1] == more[..j] + [n];
    }
    assert more[..|more|] == more;
  }

  /** The step of the inner loop: whether the node is new can be read off
      the output so far. */
  lemma DedupAppend(s: seq<Node>, n: Node)
    ensures Dedup(s + [n]) == Dedup(s) + if n in Dedup(s) then [] else [n]
  {
    DedupStep(s, n);
    DedupMembers(s);
  }

  /** Appending one element to the input appends it to the output unless
      it was seen before. */
  lemma DedupStep(s: seq<Node>, n: Node)
    ensures Dedup(s + [n]) == Dedup(s) + if n in s then [] else [n]
  {
    assert (s + [n])[..|s|] == s;
  }

  /** The nodes of one more found group follow those of the earlier ones. */
  lemma FlattenStep(gs: seq<Option<Group>>, i: nat)
    requires i < |gs|
    requires forall k :: 0 <= k <= i ==> gs[k].Some?
    ensures Flatten(Found(gs, i + 1)) == Flatten(Found(gs, i)) + gs[i].value.nodes
  {
    assert Found(gs, i + 1)[..i] == Found(gs, i);
  }

  /** Dedup keeps the order of first occurrences. */
  lemma {:induction false} DedupOrder(s: seq<Node>, i: nat, j: nat)
    requires i < j < |Dedup(s)|
    ensures Dedup(s)[i] in s && Dedup(s)[j] in s
    ensures FirstIndex(s, Dedup(s)[i]) < FirstIndex(s, Dedup(s)[j])
  {
    var front := s[..|s| - 1];
    var last := s[|s| - 1];
    var d := Dedup(front);
    assert Dedup(s) == d + if last in front then [] else [last];
    if j < |d| {
      DedupOrder(front, i, j);
      FirstIndexInFront(s, d[i]);
      FirstIndexInFront(s, d[j]);
    } else {
      DedupMembers(front);
      assert d[i] in front;
      FirstIndexInFront(s, d[i]);
    }
  }

  lemma FirstIndexInFront(s: seq<Node>, n: Node)
    requires |s| > 0 && n in s[..|s| - 1]
    ensures FirstIndex(s, n) == FirstIndex(s[..|s| - 1], n)
  {
  }

  /** A list without repeats is its own Dedup. */
  lemma {:induction false} DedupOfDistinct(s: seq<Node>)
    requires NoDuplicates(s)
    ensures Dedup(s) == s
  {
    if |s| > 0 {
      var front := s[..|s| - 1];
      assert NoDuplicates(front);
      DedupOfDistinct(front);
      assert s == front + [s[|s| - 1]];
    }
  }

  /** The nodes of the group the k-th configured id selects, if any. */
  function SelectedNodes(hubGroups: seq<Group>, ids: seq<string>, k: nat): seq<Node>
    requires k < |ids|
  {
    match Text.ParseInt(ids[k])
    case None => []
    case Some(id) => match GetGroupById(hubGroups, id)
      case None => []
      case Some(g) => g.nodes
  }

  /** The imported nodes have no repeats. */
  lemma ImportedNodesDistinct(hubGroups: seq<Group>, options: EntryOptions)
    requires ImportedNodes(hubGroups, options).Success?
    ensures NoDuplicates(ImportedNodes(hubGroups, options).value)
  {
    var gs := ResolveGroups(hubGroups, SelectedIds(hubGroups, options)).value;
    DedupMembers(Flatten(Found(gs, |gs|)));
  }

  /** A node is imported exactly when it belongs to a group one of the
      configured ids selects. */
  lemma ImportedNodesMembers(hubGroups: seq<Group>, options: EntryOptions)
    requires ImportedNodes(hubGroups, options).Success?
    ensures var ids := SelectedIds(hubGroups, options);
            var r := ImportedNodes(hubGroups, options).value;
            forall n :: n in r <==> exists k :: 0 <= k < |ids| && n in SelectedNodes(hubGroups, ids, k)
  {
    var ids := SelectedIds(hubGroups, options);
    var gs := ResolveGroups(hubGroups, ids).value;
    assert NodesOf(gs).Success?;
    var found := Found(gs, |gs|);
    DedupMembers(Flatten(found));
    FlattenMembers(found);
    SelectedNodesFound(hubGroups, ids);
    forall n | n in Flatten(found)
      ensures exists k :: 0 <= k < |ids| && n in SelectedNodes(hubGroups, ids, k)
    {
      var g :| g in found && n in g.nodes;
      var k :| 0 <= k < |found| && found[k] == g;
      assert n in SelectedNodes(hubGroups, ids, k);
    }
    forall n, k | 0 <= k < |ids| && n in SelectedNodes(hubGroups, ids, k)
      ensures n in Flatten(found)
    {
      assert found[k] in found;
    }
  }

  /** Once every id is resolved to a group, the k-th selected nodes are
      those of the k-th found group. */
  lemma SelectedNodesFound(hubGroups: seq<Group>, ids: seq<string>)
    requires ResolveGroups(hubGroups, ids).Success?
    requires NodesOf(ResolveGroups(hubGroups, ids).value).Success?
    ensures var gs := ResolveGroups(hubGroups, ids).value;
            forall k :: 0 <= k < |ids| ==> SelectedNodes(hubGroups, ids, k) == Found(gs, |gs|)[k].nodes
  {
  }

  /** With no groups option and distinct group ids on the hub, every hub
      group is selected, in hub order. */
  lemma DefaultSelectsAllGroups(hubGroups: seq<Group>, options: EntryOptions)
    requires options.groups.None?
    requires forall i, j :: 0 <= i < j < |hubGroups| ==> hubGroups[i].id != hubGroups[j].id
    ensures ImportedNodes(hubGroups, options) == Success(Dedup(Flatten(hubGroups)))
  {
    var ids := AllGroupIds(hubGroups);
    assert forall s :: s in ids ==> Text.ParseInt(s).Some?;
    var gs := ResolveGroups(hubGroups, ids).value;
    forall i | 0 <= i < |hubGroups|
      ensures gs[i] == Some(hubGroups[i])
    {
      FirstGroupWithId(hubGroups, i);
    }
    assert Found(gs, |gs|) == hubGroups;
  }

  /** With distinct ids, looking up a group's id finds that group. */
  lemma {:induction false} FirstGroupWithId(groups: seq<Group>, i: nat)
    requires i < |groups|
    requires forall a, b :: 0 <= a < b < |groups| ==> groups[a].id != groups[b].id
    ensures GetGroupById(groups, groups[i].id) == Some(groups[i])
  {
    if i > 0 {
      FirstGroupWithId(groups[1..], i - 1);
    }
  }
}
