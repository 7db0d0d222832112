/**
 * The nested reply thread of a post: `organizeReplies` turns the flat
 * reply list into a forest (roots plus, for every reply id, the list of
 * its children), `ReplyItem` decides which buttons a reply shows at its
 * depth, and the composer guards the submission of a new reply.
 */
module ReplyTree {
  import opened Wrappers
  import opened Records
  import opened Seqs
  import opened Text
  import ContentModeration

  /** The ids in the list: the keys of `replyMap`. */
  function Ids(replies: seq<Reply>): set<string> {
    set r | r in replies :: r.id
  }

  /**
   * `replyMap`: every id mapped to the reply it was last set from (a later
   * reply with the same id overwrites an earlier one).
   */
  function NodeMap(replies: seq<Reply>): (m: map<string, Reply>)
    ensures m.Keys == Ids(replies)
    ensures forall id :: id in m ==> m[id] in replies && m[id].id == id
  {
    if replies == [] then map[]
    else
      var init := replies[..|replies| - 1];
      var last := replies[|replies| - 1];
      assert replies == init + [last];
      assert Ids(replies) == Ids(init) + {last.id};
      NodeMap(init)[last.id := last]
  }

  /** Where `organizeReplies` puts a reply: among the roots, or under a parent id. */
  datatype Slot = Root | ChildOf(parent: string)

  /**
   * A reply goes under its parent when `parentReplyId` is set, non-empty
   * (the empty string is falsy) and names a reply in the list; otherwise it
   * is a root.
   */
  function SlotOf(r: Reply, ids: set<string>): Slot {
    if r.parentReplyId.Some? && r.parentReplyId.value != "" && r.parentReplyId.value in ids
    then ChildOf(r.parentReplyId.value)
    else Root
  }

  /** The nodes of the replies in `rs` that go to `slot`, in list order. */
  function Placed(rs: seq<Reply>, nodes: map<string, Reply>, slot: Slot, ids: set<string>): seq<Reply>
  {
    if rs == [] then []
    else
      var last := rs[|rs| - 1];
      Placed(rs[..|rs| - 1], nodes, slot, ids) + Entry(last, nodes, slot, ids)
  }

  /** The node `last` contributes to `slot`: nothing unless it goes there (its id is always a key). */
  function Entry(last: Reply, nodes: map<string, Reply>, slot: Slot, ids: set<string>): seq<Reply> {
    if SlotOf(last, ids) == slot && last.id in nodes then [nodes[last.id]] else []
  }

  /** The roots `organizeReplies` returns. */
  function Roots(replies: seq<Reply>): seq<Reply> {
    Placed(replies, NodeMap(replies), Root, Ids(replies))
  }

  /** The `replies` array of every node, by node id. */
  function Children(replies: seq<Reply>): map<string, seq<Reply>> {
    map p | p in Ids(replies) :: Placed(replies, NodeMap(replies), ChildOf(p), Ids(replies))
  }

  /** Placing one more reply appends its node to its own slot's list only. */
  lemma PlacedSnoc(rs: seq<Reply>, x: Reply, nodes: map<string, Reply>, slot: Slot, ids: set<string>)
    ensures Placed(rs + [x], nodes, slot, ids) == Placed(rs, nodes, slot, ids) + Entry(x, nodes, slot, ids)
  {
    assert (rs + [x])[..|rs|] == rs;
  }

  /** The first pass of `organizeReplies`: `replyMap.set(reply.id, ...)` for every reply. */
  method BuildNodeMap(replies: seq<Reply>) returns (nodes: map<string, Reply>)
    ensures nodes == NodeMap(replies)
  {
    nodes := map[];
    var i := 0;
    while i < |replies|
      invariant 0 <= i <= |replies|
      invariant nodes == NodeMap(replies[..i])
    {
      assert replies[..i + 1][..i] == replies[..i];
      nodes := nodes[replies[i].id := replies[i]];
      i := i + 1;
    }
    assert replies[..|replies|] == replies;
  }

  /** After the whole list the lists are the forest. */
  lemma ForestComplete(replies: seq<Reply>, nodes: map<string, Reply>, roots: seq<Reply>, children: map<string, seq<Reply>>)
    requires nodes == NodeMap(replies)
    requires PlacedSoFar(replies, nodes, roots, children)
    ensures roots == Roots(replies) && children == Children(replies)
  {
  }

  /** The lists built from `rs`, as the second pass has them after reading `rs`. */
  predicate PlacedSoFar(rs: seq<Reply>, nodes: map<string, Reply>, roots: seq<Reply>, children: map<string, seq<Reply>>) {
    && roots == Placed(rs, nodes, Root, nodes.Keys)
    && children.Keys == nodes.Keys
    && forall p :: p in nodes.Keys ==> children[p] == Placed(rs, nodes, ChildOf(p), nodes.Keys)
  }

  /** One step of the second pass: the node goes to the roots or to its parent's list. */
  lemma PlaceStep(rs: seq<Reply>, x: Reply, nodes: map<string, Reply>, roots: seq<Reply>, children: map<string, seq<Reply>>)
    requires x.id in nodes
    requires PlacedSoFar(rs, nodes, roots, children)
    ensures SlotOf(x, nodes.Keys) == Root ==> PlacedSoFar(rs + [x], nodes, roots + [nodes[x.id]], children)
    ensures SlotOf(x, nodes.Keys).ChildOf? ==>
      var p := SlotOf(x, nodes.Keys).parent;
      p in children && PlacedSoFar(rs + [x], nodes, roots, children[p := children[p] + [nodes[x.id]]])
  {
    PlacedSnoc(rs, x, nodes, Root, nodes.Keys);
    forall p | p in nodes.Keys
      ensures Placed(rs + [x], nodes, ChildOf(p), nodes.Keys)
           == Placed(rs, nodes, ChildOf(p), nodes.Keys) + Entry(x, nodes, ChildOf(p), nodes.Keys)
    {
      PlacedSnoc(rs, x, nodes, ChildOf(p), nodes.Keys);
    }
  }

  /**
   * `organizeReplies`: one pass fills the node map, a second pass appends
   * each reply's node to its parent's children or to the roots.
   */
  method OrganizeReplies(replies: seq<Reply>) returns (roots: seq<Reply>, children: map<string, seq<Reply>>)
    ensures roots == Roots(replies)
    ensures children == Children(replies)
  {
    var nodes := BuildNodeMap(replies);
    roots := [];
    children := map p | p in nodes.Keys :: [];
    NothingPlaced(nodes);
    ghost var done: seq<Reply> := [];
    var i := 0;
    while i < |replies|
      invariant 0 <= i <= |replies| && done == replies[..i]
      invariant PlacedSoFar(done, nodes, roots, children)
    {
      assert replies[..i + 1] == done + [replies[i]];
      assert replies[i].id in nodes;
      roots, children := Place(done, replies[i], nodes, roots, children);
      done := done + [replies[i]];
      i := i + 1;
    }
    assert done == replies;
    ForestComplete(replies, nodes, roots, children);
  }

  /** Before the second pass every list is empty. */
  lemma NothingPlaced(nodes: map<string, Reply>)
    ensures PlacedSoFar([], nodes, [], map p | p in nodes.Keys :: [])
  {
  }

  /** One step of the second pass of `organizeReplies`. */
  method Place(ghost rs: seq<Reply>, reply: Reply, nodes: map<string, Reply>, roots: seq<Reply>, children: map<string, seq<Reply>>)
    returns (roots': seq<Reply>, children': map<string, seq<Reply>>)
    requires reply.id in nodes
    requires PlacedSoFar(rs, nodes, roots, children)
    ensures PlacedSoFar(rs + [reply], nodes, roots', children')
  {
    PlaceStep(rs, reply, nodes, roots, children);
    var node := nodes[reply.id];
    if reply.parentReplyId.Some? && reply.parentReplyId.value != "" && reply.parentReplyId.value in nodes {
      var p := reply.parentReplyId.value;
      roots', children' := roots, children[p := children[p] + [node]];
    } else {
      roots', children' := roots + [node], children;
    }
  }

  // ---------------------------------------------------------------------
  // Partition and order, for lists with unique ids
  // ---------------------------------------------------------------------

  /** No two replies share an id (ids are minted from the clock). */
  predicate UniqueIds(replies: seq<Reply>) {
    forall i, j :: 0 <= i < |replies| && 0 <= j < |replies| && replies[i].id == replies[j].id ==> i == j
  }

  /** With unique ids every reply is its own node. */
  lemma NodeIsReply(replies: seq<Reply>, x: Reply)
    requires UniqueIds(replies) && x in replies
    ensures x.id in NodeMap(replies) && NodeMap(replies)[x.id] == x
  {
    var m := NodeMap(replies);
    var i :| 0 <= i < |replies| && replies[i] == x;
    var j :| 0 <= j < |replies| && replies[j] == m[x.id];
  }

  /** The test a reply passes to go to `slot`. */
  function InSlot(ids: set<string>, slot: Slot): Reply -> bool {
    r => SlotOf(r, ids) == slot
  }

  /** The last reply of a unique-id prefix contributes itself, or nothing. */
  lemma EntryIsFilter(replies: seq<Reply>, n: nat, slot: Slot)
    requires UniqueIds(replies) && 0 < n <= |replies|
    ensures Entry(replies[n - 1], NodeMap(replies), slot, Ids(replies))
         == Filter([replies[n - 1]], InSlot(Ids(replies), slot))
  {
    NodeIsReply(replies, replies[n - 1]);
    assert [replies[n - 1]][1..] == [];
  }

  /** Placing the nodes of a unique-id list is filtering the list. */
  lemma {:induction false} PlacedIsFilter(replies: seq<Reply>, n: nat, slot: Slot)
    requires UniqueIds(replies) && n <= |replies|
    ensures Placed(replies[..n], NodeMap(replies), slot, Ids(replies))
         == Filter(replies[..n], InSlot(Ids(replies), slot))
  {
    if n > 0 {
      var last := replies[n - 1];
      var ids := Ids(replies);
      var nodes := NodeMap(replies);
      PlacedIsFilter(replies, n - 1, slot);
      assert replies[..n] == replies[..n - 1] + [last];
      PlacedSnoc(replies[..n - 1], last, nodes, slot, ids);
      FilterAppend(replies[..n - 1], [last], InSlot(ids, slot));
      EntryIsFilter(replies, n, slot);
    }
  }

  /**
   * The roots are exactly the replies without a present parent, and each
   * children list exactly the replies under that parent, each in input order.
   */
  lemma ForestIsFilter(replies: seq<Reply>)
    requires UniqueIds(replies)
    ensures Roots(replies) == Filter(replies, InSlot(Ids(replies), Root))
    ensures Children(replies).Keys == Ids(replies)
    ensures forall p :: p in Ids(replies) ==>
      Children(replies)[p] == Filter(replies, InSlot(Ids(replies), ChildOf(p)))
  {
    assert replies[..|replies|] == replies;
    PlacedIsFilter(replies, |replies|, Root);
    forall p | p in Ids(replies)
      ensures Children(replies)[p] == Filter(replies, InSlot(Ids(replies), ChildOf(p)))
    {
      PlacedIsFilter(replies, |replies|, ChildOf(p));
    }
  }

  /** In a unique-id list a reply occurs once. */
  lemma OccursOnce(replies: seq<Reply>, x: Reply)
    requires UniqueIds(replies) && x in replies
    ensures multiset(replies)[x] == 1
    decreases |replies|
  {
    var last := replies[|replies| - 1];
    var init := replies[..|replies| - 1];
    assert replies == init + [last];
    if x == last {
      forall k | 0 <= k < |init| ensures init[k] != x {
        assert replies[k] == init[k];
      }
    } else {
      assert UniqueIds(init);
      OccursOnce(init, x);
    }
  }

  /**
   * Every reply is placed exactly once: once in the list of its slot and
   * nowhere else; an orphan (absent or empty parent id) is a root.
   */
  lemma PlacedExactlyOnce(replies: seq<Reply>, x: Reply)
    requires UniqueIds(replies) && x in replies
    ensures multiset(Roots(replies))[x] == if SlotOf(x, Ids(replies)) == Root then 1 else 0
    ensures forall p :: p in Children(replies) ==>
      multiset(Children(replies)[p])[x] == if SlotOf(x, Ids(replies)) == ChildOf(p) then 1 else 0
    ensures SlotOf(x, Ids(replies)).ChildOf? ==> SlotOf(x, Ids(replies)).parent in Children(replies)
  {
    var ids := Ids(replies);
    ForestIsFilter(replies);
    OccursOnce(replies, x);
    FilterCount(replies, InSlot(ids, Root), x);
    forall p | p in Children(replies)
      ensures multiset(Children(replies)[p])[x] == if SlotOf(x, ids) == ChildOf(p) then 1 else 0
    {
      FilterCount(replies, InSlot(ids, ChildOf(p)), x);
    }
  }

  /** Membership in the forest's lists, from the filters. */
  lemma ForestMembership(replies: seq<Reply>, x: Reply)
    requires UniqueIds(replies)
    ensures x in Roots(replies) <==> x in replies && SlotOf(x, Ids(replies)) == Root
    ensures forall p :: p in Children(replies) ==>
      (x in Children(replies)[p] <==> x in replies && SlotOf(x, Ids(replies)) == ChildOf(p))
  {
    var ids := Ids(replies);
    ForestIsFilter(replies);
    FilterMembership(replies, InSlot(ids, Root), x);
    forall p | p in Children(replies)
      ensures x in Children(replies)[p] <==> x in replies && SlotOf(x, ids) == ChildOf(p)
    {
      FilterMembership(replies, InSlot(ids, ChildOf(p)), x);
    }
  }

  // ---------------------------------------------------------------------
  // Reachability
  // ---------------------------------------------------------------------

  /**
   * The membership facts of a forest built from `replies`: the roots are
   * the replies without a present parent, the lists are keyed by the ids,
   * and each list holds the replies under that id.
   */
  ghost predicate Shaped(replies: seq<Reply>, roots: seq<Reply>, children: map<string, seq<Reply>>) {
    && (forall x {:trigger x in roots} :: x in roots <==> x in replies && SlotOf(x, Ids(replies)) == Root)
    && children.Keys == Ids(replies)
    && (forall p, x {:trigger x in children[p]} :: p in children ==> (x in children[p] <==> x in replies && SlotOf(x, Ids(replies)) == ChildOf(p)))
  }

  /** The forest `organizeReplies` builds from a unique-id list has that shape. */
  lemma ForestShaped(replies: seq<Reply>)
    requires UniqueIds(replies)
    ensures Shaped(replies, Roots(replies), Children(replies))
  {
    ForestIsFilter(replies);
    forall x ensures x in Roots(replies) <==> x in replies && SlotOf(x, Ids(replies)) == Root {
      ForestMembership(replies, x);
    }
    forall p, x | p in Children(replies)
      ensures x in Children(replies)[p] <==> x in replies && SlotOf(x, Ids(replies)) == ChildOf(p)
    {
      ForestMembership(replies, x);
    }
  }

  /**
   * `x` is rendered at depth `d`: a root at depth 0, or a child of a node
   * rendered at depth `d - 1` (`ReplyItem` renders `reply.replies` one
   * level deeper).
   */
  ghost predicate InForest(roots: seq<Reply>, children: map<string, seq<Reply>>, x: Reply, d: nat)
    decreases d
  {
    if d == 0 then x in roots
    else exists y :: InForest(roots, children, y, d - 1) && y.id in children && x in children[y.id]
  }

  /** Everything rendered comes from the input list. */
  lemma RenderedIsInput(replies: seq<Reply>, roots: seq<Reply>, children: map<string, seq<Reply>>, x: Reply, d: nat)
    requires Shaped(replies, roots, children) && InForest(roots, children, x, d)
    ensures x in replies
  {
    if d > 0 {
      var y :| InForest(roots, children, y, d - 1) && y.id in children && x in children[y.id];
    }
  }

  /** A rendered child sits under the reply its parent id names, rendered one level up. */
  lemma RenderedChild(replies: seq<Reply>, roots: seq<Reply>, children: map<string, seq<Reply>>, x: Reply, d: nat)
    returns (y: Reply)
    requires Shaped(replies, roots, children) && d > 0 && InForest(roots, children, x, d)
    ensures InForest(roots, children, y, d - 1)
    ensures y in replies && SlotOf(x, Ids(replies)) == ChildOf(y.id)
  {
    y :| InForest(roots, children, y, d - 1) && y.id in children && x in children[y.id];
    RenderedIsInput(replies, roots, children, y, d - 1);
  }

  /** The node a reply is rendered under, if any. */
  function ParentNode(replies: seq<Reply>, x: Reply): (r: Option<Reply>)
    ensures r.Some? <==> SlotOf(x, Ids(replies)).ChildOf?
    ensures r.Some? ==> r.value in replies && r.value.id == SlotOf(x, Ids(replies)).parent
  {
    match SlotOf(x, Ids(replies))
    case Root => None
    case ChildOf(p) => Some(NodeMap(replies)[p])
  }

  /** Every member of `cycle` hangs under a present parent that is itself in `cycle`. */
  predicate ParentClosed(replies: seq<Reply>, cycle: set<Reply>) {
    forall x {:trigger ParentNode(replies, x)} :: x in cycle ==>
      ParentNode(replies, x).Some? && ParentNode(replies, x).value in cycle
  }

  /** A rendered reply below the roots has its parent's node rendered one level up. */
  lemma ParentRendered(replies: seq<Reply>, roots: seq<Reply>, children: map<string, seq<Reply>>, x: Reply, d: nat)
    requires UniqueIds(replies) && Shaped(replies, roots, children) && d > 0
    ensures InForest(roots, children, x, d) ==>
      ParentNode(replies, x).Some? && InForest(roots, children, ParentNode(replies, x).value, d - 1)
  {
    if InForest(roots, children, x, d) {
      var y := RenderedChild(replies, roots, children, x, d);
      NodeIsReply(replies, y);
    }
  }

  /** A member of a parent-closed set is not rendered at any depth. */
  lemma {:induction false} CycleMemberHidden(replies: seq<Reply>, roots: seq<Reply>, children: map<string, seq<Reply>>,
                                            cycle: set<Reply>, x: Reply, d: nat)
    requires UniqueIds(replies) && Shaped(replies, roots, children)
    requires ParentClosed(replies, cycle) && x in cycle
    ensures !InForest(roots, children, x, d)
    decreases d
  {
    var parent := ParentNode(replies, x);
    if d > 0 {
      ParentRendered(replies, roots, children, x, d);
      CycleMemberHidden(replies, roots, children, cycle, parent.value, d - 1);
    }
  }

  /**
   * Replies on a parent cycle are never rendered: a set of replies each of
   * whose parents is again in the set is unreachable from the roots.
   */
  lemma CycleUnreachable(replies: seq<Reply>, cycle: set<Reply>, d: nat)
    requires UniqueIds(replies) && ParentClosed(replies, cycle)
    ensures forall x :: x in cycle ==> !InForest(Roots(replies), Children(replies), x, d)
  {
    ForestShaped(replies);
    forall x | x in cycle ensures !InForest(Roots(replies), Children(replies), x, d) {
      CycleMemberHidden(replies, Roots(replies), Children(replies), cycle, x, d);
    }
  }

  /** A self-parented reply is never rendered. */
  lemma SelfParentHidden(replies: seq<Reply>, x: Reply, d: nat)
    requires UniqueIds(replies) && x in replies && x.parentReplyId == Some(x.id) && x.id != ""
    ensures !InForest(Roots(replies), Children(replies), x, d)
  {
    NodeIsReply(replies, x);
    assert ParentNode(replies, x) == Some(x);
    CycleUnreachable(replies, {x}, d);
  }

  /**
   * The parent links are acyclic, witnessed by a rank that strictly
   * decreases from every reply to its present parent.
   */
  predicate RankedParents(replies: seq<Reply>, rank: string -> nat) {
    forall x :: x in replies && SlotOf(x, Ids(replies)).ChildOf? ==>
      rank(SlotOf(x, Ids(replies)).parent) < rank(x.id)
  }

  /** Following parents up acyclic links reaches a root, so every reply is rendered. */
  lemma {:induction false} RenderedAt(replies: seq<Reply>, roots: seq<Reply>, children: map<string, seq<Reply>>,
                                      rank: string -> nat, x: Reply)
    returns (d: nat)
    requires Shaped(replies, roots, children) && RankedParents(replies, rank) && x in replies
    ensures InForest(roots, children, x, d)
    decreases rank(x.id)
  {
    if SlotOf(x, Ids(replies)) == Root {
      d := 0;
    } else {
      var p := SlotOf(x, Ids(replies)).parent;
      var y :| y in replies && y.id == p;
      var dy := RenderedAt(replies, roots, children, rank, y);
      assert y.id in children && x in children[y.id];
      d := dy + 1;
    }
  }

  /**
   * With unique ids and acyclic parent links every reply is rendered, at a
   * depth found by following parents, whatever the order of the list.
   */
  lemma EveryReplyRendered(replies: seq<Reply>, rank: string -> nat, x: Reply) returns (d: nat)
    requires UniqueIds(replies) && RankedParents(replies, rank) && x in replies
    ensures InForest(Roots(replies), Children(replies), x, d)
  {
    ForestShaped(replies);
    d := RenderedAt(replies, Roots(replies), Children(replies), rank, x);
  }

  /** A reply listed before its parent is still rendered under it. */
  lemma ChildBeforeParentRendered(c: Reply, p: Reply) returns (d: nat)
    requires c.id == "2" && c.parentReplyId == Some("1")
    requires p.id == "1" && p.parentReplyId.None?
    ensures InForest(Roots([c, p]), Children([c, p]), c, d)
  {
    var replies := [c, p];
    assert Ids(replies) == {"2", "1"};
    var rank: string -> nat := id => if id == "1" then 0 else 1;
    assert SlotOf(c, Ids(replies)) == ChildOf("1");
    assert SlotOf(p, Ids(replies)) == Root;
    d := EveryReplyRendered(replies, rank, c);
  }

  /** Every reply's present parent comes earlier in the list (replies are appended over time). */
  predicate ParentsFirst(replies: seq<Reply>) {
    forall i :: 0 <= i < |replies| && SlotOf(replies[i], Ids(replies)).ChildOf? ==>
      exists j :: 0 <= j < i && replies[j].id == SlotOf(replies[i], Ids(replies)).parent
  }

  /** The index of the first reply with the id, or the length when there is none. */
  function FirstIndex(replies: seq<Reply>, id: string): (r: nat)
    ensures r <= |replies|
    ensures r < |replies| ==> replies[r].id == id
    ensures forall k :: 0 <= k < r ==> replies[k].id != id
  {
    if replies == [] then 0
    else if replies[0].id == id then 0
    else 1 + FirstIndex(replies[1..], id)
  }

  /** A parents-first list is acyclic: the position in the list is a rank. */
  lemma ParentsFirstRanked(replies: seq<Reply>) returns (rank: string -> nat)
    requires UniqueIds(replies) && ParentsFirst(replies)
    ensures RankedParents(replies, rank)
  {
    rank := id => FirstIndex(replies, id);
    forall x | x in replies && SlotOf(x, Ids(replies)).ChildOf?
      ensures rank(SlotOf(x, Ids(replies)).parent) < rank(x.id)
    {
      var i :| 0 <= i < |replies| && replies[i] == x;
      var j :| 0 <= j < i && replies[j].id == SlotOf(replies[i], Ids(replies)).parent;
      assert FirstIndex(replies, replies[j].id) <= j;
      assert FirstIndex(replies, x.id) == i;
    }
  }

  // ---------------------------------------------------------------------
  // ReplyItem
  // ---------------------------------------------------------------------

  /** Replies deeper than this get no reply button (`maxLevel`). */
  const MAX_LEVEL := 3

  /** What the buttons of a reply do when clicked. */
  datatype ClickResult = AuthRequired | Emit(replyId: string)

  /** Like, reply and mark-solution all ask for a login first, then emit the reply's id. */
  function Click(isAuthenticated: bool, reply: Reply): (r: ClickResult)
    ensures r.Emit? <==> isAuthenticated
    ensures r.Emit? ==> r.replyId == reply.id
  {
    if !isAuthenticated then AuthRequired else Emit(reply.id)
  }

  /** The reply button is shown above the maximum depth. */
  predicate ShowsReplyButton(level: nat) {
    level < MAX_LEVEL
  }

  /** The mark-solution button is shown on a top-level reply that is not yet a solution. */
  predicate ShowsSolutionButton(reply: Reply, level: nat) {
    !reply.isSolution && level == 0
  }

  /**
   * In the rendered thread, a reply with a solution button is a root
   * reply that is not marked. A reply with a reply button is one whose
   * answers (replies naming it as parent) are rendered one level below it,
   * at most at the maximum depth.
   */
  lemma ButtonsInForest(replies: seq<Reply>, x: Reply, d: nat)
    requires UniqueIds(replies) && InForest(Roots(replies), Children(replies), x, d)
    ensures ShowsSolutionButton(x, d) <==> x in Roots(replies) && SlotOf(x, Ids(replies)) == Root && d == 0 && !x.isSolution
    ensures ShowsReplyButton(d) ==> d + 1 <= MAX_LEVEL
    ensures ShowsReplyButton(d) && x.id != "" ==>
      forall y :: y in replies && y.parentReplyId == Some(x.id) ==> InForest(Roots(replies), Children(replies), y, d + 1)
  {
    ForestMembership(replies, x);
    ForestShaped(replies);
    RenderedIsInput(replies, Roots(replies), Children(replies), x, d);
    if x.id != "" {
      forall y | y in replies && y.parentReplyId == Some(x.id)
        ensures InForest(Roots(replies), Children(replies), y, d + 1)
      {
        assert x.id in Ids(replies);
        ForestMembership(replies, y);
        assert y in Children(replies)[x.id];
      }
    }
  }

  // ---------------------------------------------------------------------
  // The composer
  // ---------------------------------------------------------------------

  /** What a submission does. */
  datatype SubmitOutcome =
    | AskedForLogin
    | NothingToSend
    | Refused(reason: string)
    | Sent(postId: string, content: string, parentReplyId: Option<string>)

  /** Used when a rejection carries no reason. */
  const FALLBACK_REASON := "\U{130}\U{E7}erik uygun de\U{11F}il"

  /** The reply form of `NestedReplySystem`. */
  class ReplyComposer {
    /** The word lists `moderateContent` uses. */
    const banned: seq<string>
    const harmful: seq<string>
    var replyContent: string
    var isSubmitting: bool
    var moderationError: string
    var replyingTo: Option<string>

    constructor ()
      ensures banned == ContentModeration.BANNED_WORDS && harmful == ContentModeration.HARMFUL_PHRASES
      ensures replyContent == "" && !isSubmitting && moderationError == "" && replyingTo == None
    {
      banned := ContentModeration.BANNED_WORDS;
      harmful := ContentModeration.HARMFUL_PHRASES;
      replyContent := "";
      isSubmitting := false;
      moderationError := "";
      replyingTo := None;
    }

    /** `handleReplyTo`: the next reply answers `parentId`. */
    method ReplyTo(parentId: string)
      modifies this
      ensures replyingTo == Some(parentId)
      ensures replyContent == old(replyContent) && isSubmitting == old(isSubmitting) && moderationError == old(moderationError)
    {
      replyingTo := Some(parentId);
    }

    /** The cancel button of the "replying to a reply" banner. */
    method CancelReplyTo()
      modifies this
      ensures replyingTo == None
      ensures replyContent == old(replyContent) && isSubmitting == old(isSubmitting) && moderationError == old(moderationError)
    {
      replyingTo := None;
    }

    /**
     * `handleSubmitReply`: login first, then a non-blank text, then
     * moderation of the untrimmed text; a reply that passes is sent trimmed
     * to the target (an empty target id counts as none), and the form is
     * cleared.
     */
    method Submit(isAuthenticated: bool, postId: string) returns (outcome: SubmitOutcome)
      modifies this
      ensures !isAuthenticated ==> outcome == AskedForLogin && Unchanged()
      ensures isAuthenticated && Trim(old(replyContent)) == [] ==> outcome == NothingToSend && Unchanged()
      ensures isAuthenticated && Trim(old(replyContent)) != [] && !Verdict(old(replyContent)).isAllowed ==>
        && outcome == Refused(Verdict(old(replyContent)).reason.GetOr(FALLBACK_REASON))
        && moderationError == outcome.reason
        && replyContent == old(replyContent) && replyingTo == old(replyingTo) && isSubmitting == old(isSubmitting)
      ensures isAuthenticated && Trim(old(replyContent)) != [] && Verdict(old(replyContent)).isAllowed ==>
        && outcome == Sent(postId, Trim(old(replyContent)), Target(old(replyingTo)))
        && replyContent == "" && replyingTo == None && moderationError == "" && !isSubmitting
    {
      var content := replyContent;
      if !isAuthenticated {
        return AskedForLogin;
      }
      if Trim(content) == [] {
        return NothingToSend;
      }
      var verdict := Verdict(content);
      if !verdict.isAllowed {
        moderationError := verdict.reason.GetOr(FALLBACK_REASON);
        return Refused(moderationError);
      }
      outcome := Send(postId);
    }

    /** The allowed path of `handleSubmitReply`: the trimmed text goes out and the form is cleared. */
    method Send(postId: string) returns (outcome: SubmitOutcome)
      modifies this
      ensures outcome == Sent(postId, Trim(old(replyContent)), Target(old(replyingTo)))
      ensures replyContent == "" && replyingTo == None && moderationError == "" && !isSubmitting
    {
      outcome := Sent(postId, Trim(replyContent), Target(replyingTo));
      moderationError := "";
      replyContent, replyingTo, isSubmitting := "", None, false;
    }

    /** `replyingTo || undefined`: an empty target id counts as none. */
    function Target(replyingTo: Option<string>): (r: Option<string>)
      ensures r.Some? <==> replyingTo.Some? && replyingTo.value != ""
      ensures r.Some? ==> r == replyingTo
    {
      if replyingTo == Some("") then None else replyingTo
    }

    /** `moderateContent` of a text. */
    function Verdict(content: string): ContentModeration.ModerationResult
    {
      ContentModeration.ModerateContent(banned, harmful, content)
    }

    /** The form state is as it was. */
    twostate predicate Unchanged()
      reads this
    {
      replyContent == old(replyContent) && isSubmitting == old(isSubmitting)
      && moderationError == old(moderationError) && replyingTo == old(replyingTo)
    }
  }
}
