/**
 * The workspace tree of src/components/sidebar/workspace/DbTreeView.tsx: a flat list of nodes,
 * each naming its parent by id and listing its children's ids. New nodes are attached under
 * their parents, one connection node per live connection hangs under the root, and the view
 * remembers which childless nodes it was asked to load.
 */
module DbTrees {
  import opened Wrappers

  datatype NodeType = Root | Connection | Database | Schema | Folder | Table | Column | Key | Index
                    | View | Function | Procedure | Trigger

  /** The metadata a node carries: its type, and for a connection node which connection and plugin. */
  datatype NodeMetadata = NodeMetadata(nodeType: NodeType, connectionId: Option<string>, pluginId: Option<string>)

  /** `INode`: `parent` is None for `null`. */
  datatype TreeNode = TreeNode(id: int, name: string, children: seq<int>, parent: Option<int>, isBranch: bool,
                               metadata: NodeMetadata)

  /** What the tree reads of a live connection. */
  datatype ConnectionSummary = ConnectionSummary(connectionId: string, name: string, pluginId: string)

  /** `initialRootNode` (lines 23-32). */
  const InitialRootNode := TreeNode(0, "Root", [], None, true, NodeMetadata(Root, None, None))

  /** `data.findIndex((node) => node.id === parent)`: the first node with that id, or -1. */
  function FindIndex(data: seq<TreeNode>, parent: Option<int>): (i: int)
    ensures -1 <= i < |data|
    ensures i == -1 <==> forall k :: 0 <= k < |data| ==> Some(data[k].id) != parent
    ensures 0 <= i ==> Some(data[i].id) == parent && forall k :: 0 <= k < i ==> Some(data[k].id) != parent
    decreases |data|
  {
    if data == [] then -1
    else if Some(data[0].id) == parent then 0
    else
      var j := FindIndex(data[1..], parent);
      assert forall k :: 1 <= k < |data| ==> data[k] == data[1..][k - 1];
      if j == -1 then -1 else j + 1
  }

  /** What attaching one new node does (lines 68-75): under the first node with its parent's id, or not at all. */
  function AddNode(data: seq<TreeNode>, newNode: TreeNode): seq<TreeNode> {
    var parentIndex := FindIndex(data, newNode.parent);
    if parentIndex == -1 then data
    else data[parentIndex := data[parentIndex].(children := data[parentIndex].children + [newNode.id])] + [newNode]
  }

  /** The tree after attaching `newNodes` in order. */
  function AddNodes(data: seq<TreeNode>, newNodes: seq<TreeNode>): seq<TreeNode>
    decreases |newNodes|
  {
    if newNodes == [] then data
    else AddNode(AddNodes(data, newNodes[..|newNodes| - 1]), newNodes[|newNodes| - 1])
  }

  /** `after` holds the nodes of `before` in their places, each with at most more children at the end. */
  ghost predicate Extends(before: seq<TreeNode>, after: seq<TreeNode>) {
    && |before| <= |after|
    && forall i :: 0 <= i < |before| ==>
         && after[i] == before[i].(children := after[i].children)
         && before[i].children <= after[i].children
  }

  /** Every node from position `from` on hangs under an earlier node that lists it as a child. */
  ghost predicate AttachedFrom(data: seq<TreeNode>, from: nat) {
    forall j :: from <= j < |data| ==>
      exists i :: 0 <= i < j && Some(data[i].id) == data[j].parent && data[j].id in data[i].children
  }

  lemma ExtendsTrans(a: seq<TreeNode>, b: seq<TreeNode>, c: seq<TreeNode>)
    requires Extends(a, b) && Extends(b, c)
    ensures Extends(a, c)
  {
    forall i | 0 <= i < |a| ensures a[i].children <= c[i].children {
      assert a[i].children <= b[i].children <= c[i].children;
    }
  }

  lemma AddNodeExtends(data: seq<TreeNode>, newNode: TreeNode)
    ensures Extends(data, AddNode(data, newNode))
  {
  }

  /**
   * Attaching nodes keeps every earlier node in its place with its id, name, parent and
   * metadata, only adding children. What is appended are nodes of `newNodes` (which may have
   * gained children of their own), at most one per new node.
   */
  lemma {:induction false} AddNodesExtends(data: seq<TreeNode>, newNodes: seq<TreeNode>)
    ensures var r := AddNodes(data, newNodes);
            && Extends(data, r)
            && |r| <= |data| + |newNodes|
            && (forall j :: |data| <= j < |r| ==>
                  exists k :: 0 <= k < |newNodes| && r[j] == newNodes[k].(children := r[j].children))
    decreases |newNodes|
  {
    if newNodes != [] {
      var init, newNode := newNodes[..|newNodes| - 1], newNodes[|newNodes| - 1];
      AddNodesExtends(data, init);
      var mid := AddNodes(data, init);
      AddNodeExtends(mid, newNode);
      var r := AddNode(mid, newNode);
      ExtendsTrans(data, mid, r);
      forall j | |data| <= j < |r|
        ensures exists k :: 0 <= k < |newNodes| && r[j] == newNodes[k].(children := r[j].children)
      {
        if j < |mid| {
          var k :| 0 <= k < |init| && mid[j] == init[k].(children := mid[j].children);
          assert r[j] == newNodes[k].(children := r[j].children);
        } else {
          assert r[j] == newNodes[|newNodes| - 1];
        }
      }
    }
  }

  lemma AttachedStep(data: seq<TreeNode>, newNode: TreeNode, from: nat)
    requires AttachedFrom(data, from)
    ensures AttachedFrom(AddNode(data, newNode), from)
  {
    var r := AddNode(data, newNode);
    AddNodeExtends(data, newNode);
    forall j | from <= j < |r|
      ensures exists i :: 0 <= i < j && Some(r[i].id) == r[j].parent && r[j].id in r[i].children
    {
      if j < |data| {
        var i :| 0 <= i < j && Some(data[i].id) == data[j].parent && data[j].id in data[i].children;
        assert r[i].id == data[i].id && data[i].children <= r[i].children;
      } else {
        var p := FindIndex(data, newNode.parent);
        assert r[p].children == data[p].children + [newNode.id];
      }
    }
  }

  /** Each node that was attached hangs under an earlier node that lists it as a child. */
  lemma {:induction false} AddNodesAttached(data: seq<TreeNode>, newNodes: seq<TreeNode>)
    ensures AttachedFrom(AddNodes(data, newNodes), |data|)
    decreases |newNodes|
  {
    if newNodes != [] {
      var init := newNodes[..|newNodes| - 1];
      AddNodesAttached(data, init);
      AttachedStep(AddNodes(data, init), newNodes[|newNodes| - 1], |data|);
    }
  }

  /** A node whose parent id is nowhere in the tree changes nothing. */
  lemma OrphanDropped(data: seq<TreeNode>, newNode: TreeNode)
    requires forall k :: 0 <= k < |data| ==> Some(data[k].id) != newNode.parent
    ensures AddNode(data, newNode) == data
  {
  }

  // ---------------------------------------------------------------------------
  // Connection nodes
  // ---------------------------------------------------------------------------

  /** One connection node (lines 47-58): a branch under the root with the connection's ids. */
  function ConnectionNode(conn: ConnectionSummary, id: int): TreeNode {
    TreeNode(id, conn.name, [], Some(0), true, NodeMetadata(Connection, Some(conn.connectionId), Some(conn.pluginId)))
  }

  /** `connections.map((conn, index) => ...)`: ids count up from the tree's current length. */
  function ConnectionNodes(connections: seq<ConnectionSummary>, dataLength: nat): (nodes: seq<TreeNode>)
    ensures |nodes| == |connections|
    ensures forall i :: 0 <= i < |connections| ==> nodes[i] == ConnectionNode(connections[i], dataLength + i)
    decreases |connections|
  {
    if connections == [] then []
    else
      var n := |connections| - 1;
      ConnectionNodes(connections[..n], dataLength) + [ConnectionNode(connections[n], dataLength + n)]
  }

  /** The ids `dataLength`, `dataLength + 1`, ... of `count` connection nodes. */
  function IdsFrom(dataLength: nat, count: nat): (ids: seq<int>)
    ensures |ids| == count && forall i :: 0 <= i < count ==> ids[i] == dataLength + i
    decreases count
  {
    if count == 0 then [] else IdsFrom(dataLength, count - 1) + [dataLength + count - 1]
  }

  /** Each node's id is its position in the list, so ids are distinct. */
  ghost predicate IdsArePositions(data: seq<TreeNode>) {
    forall i :: 0 <= i < |data| ==> data[i].id == i
  }

  /** `data` with `ids` added to the root's children and `nodes` appended. */
  function UnderRoot(data: seq<TreeNode>, ids: seq<int>, nodes: seq<TreeNode>): seq<TreeNode>
    requires |data| > 0
  {
    [data[0].(children := data[0].children + ids)] + data[1..] + nodes
  }

  /** With the root first, a node whose parent is 0 goes under the root. */
  lemma AttachUnderRoot(data: seq<TreeNode>, ids: seq<int>, nodes: seq<TreeNode>, node: TreeNode)
    requires |data| > 0 && data[0].id == 0 && node.parent == Some(0)
    ensures AddNode(UnderRoot(data, ids, nodes), node) == UnderRoot(data, ids + [node.id], nodes + [node])
  {
    var mid := UnderRoot(data, ids, nodes);
    assert FindIndex(mid, Some(0)) == 0;
    var root := data[0].(children := data[0].children + ids);
    assert root.(children := root.children + [node.id]) == data[0].(children := data[0].children + (ids + [node.id]));
  }

  /**
   * In a tree with the root first, all connection nodes are attached under the root, in order.
   */
  lemma {:induction false} ConnectionsUnderRoot(data: seq<TreeNode>, connections: seq<ConnectionSummary>)
    requires |data| > 0 && data[0].id == 0
    ensures AddNodes(data, ConnectionNodes(connections, |data|))
         == UnderRoot(data, IdsFrom(|data|, |connections|), ConnectionNodes(connections, |data|))
    decreases |connections|
  {
    var nodes := ConnectionNodes(connections, |data|);
    if connections == [] {
      assert data[0].(children := data[0].children + []) == data[0];
      assert data == [data[0]] + data[1..];
    } else {
      var n := |connections| - 1;
      ConnectionsUnderRoot(data, connections[..n]);
      var init := ConnectionNodes(connections[..n], |data|);
      assert nodes[..n] == init;
      assert nodes == init + [nodes[n]];
      AttachUnderRoot(data, IdsFrom(|data|, n), init, nodes[n]);
      assert IdsFrom(|data|, n + 1) == IdsFrom(|data|, n) + [nodes[n].id];
    }
  }

  /** When the tree's ids are its positions, they still are after the connection nodes are added. */
  lemma ConnectionIdsArePositions(data: seq<TreeNode>, connections: seq<ConnectionSummary>)
    requires |data| > 0 && IdsArePositions(data)
    ensures IdsArePositions(AddNodes(data, ConnectionNodes(connections, |data|)))
  {
    ConnectionsUnderRoot(data, connections);
    var r := UnderRoot(data, IdsFrom(|data|, |connections|), ConnectionNodes(connections, |data|));
    forall i | 0 <= i < |r| ensures r[i].id == i {
      if 0 < i < |data| {
        assert r[i] == data[i];
      }
    }
  }

  // ---------------------------------------------------------------------------
  // The view's state
  // ---------------------------------------------------------------------------

  class DbTreeView {
    var data: seq<TreeNode>
    var nodesAlreadyLoaded: seq<TreeNode>

    /** No node is recorded as loaded twice. */
    ghost predicate Valid()
      reads this
    {
      forall i, j :: 0 <= i < j < |nodesAlreadyLoaded| ==> nodesAlreadyLoaded[i].id != nodesAlreadyLoaded[j].id
    }

    /** The initial state (line 38-40): the root alone, nothing loaded. */
    constructor ()
      ensures Valid() && data == [InitialRootNode] && nodesAlreadyLoaded == []
    {
      data := [InitialRootNode];
      nodesAlreadyLoaded := [];
    }

    /** `updateTreeData` (lines 63-79): each new node in turn goes under its parent, if present. */
    method UpdateTreeData(newNodes: seq<TreeNode>)
      modifies this
      ensures data == AddNodes(old(data), newNodes)
      ensures nodesAlreadyLoaded == old(nodesAlreadyLoaded)
    {
      var updatedData := data;
      for n := 0 to |newNodes|
        invariant updatedData == AddNodes(data, newNodes[..n])
      {
        var newNode := newNodes[n];
        assert newNodes[..n + 1][..n] == newNodes[..n];
        var parentIndex := FindIndex(updatedData, newNode.parent);
        if parentIndex != -1 {
          var parent := updatedData[parentIndex];
          updatedData := updatedData[parentIndex := parent.(children := parent.children + [newNode.id])];
          updatedData := updatedData + [newNode];
        }
      }
      assert newNodes[..|newNodes|] == newNodes;
      data := updatedData;
    }

    /** The effect of lines 43-61: one connection node per live connection, once they are known. */
    method ConnectionsUpdated(connections: Option<seq<ConnectionSummary>>)
      modifies this
      ensures connections.None? ==> data == old(data)
      ensures connections.Some? ==> data == AddNodes(old(data), ConnectionNodes(connections.value, |old(data)|))
      ensures nodesAlreadyLoaded == old(nodesAlreadyLoaded)
    {
      if connections.Some? {
        UpdateTreeData(ConnectionNodes(connections.value, |data|));
      }
    }

    /** `onLoadData` (lines 81-93): record a childless node the first time it is asked for. */
    method OnLoadData(element: TreeNode)
      requires Valid()
      modifies this
      ensures Valid()
      ensures data == old(data)
      ensures if |element.children| == 0 && forall k :: 0 <= k < |old(nodesAlreadyLoaded)| ==> old(nodesAlreadyLoaded)[k].id != element.id
              then nodesAlreadyLoaded == old(nodesAlreadyLoaded) + [element]
              else nodesAlreadyLoaded == old(nodesAlreadyLoaded)
    {
      var nodeHasNoChildData := |element.children| == 0;
      var nodeHasAlreadyBeenLoaded := FindIndex(nodesAlreadyLoaded, Some(element.id)) != -1;
      if nodeHasNoChildData && !nodeHasAlreadyBeenLoaded {
        nodesAlreadyLoaded := nodesAlreadyLoaded + [element];
      }
    }
  }
}
