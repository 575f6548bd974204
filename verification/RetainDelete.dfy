/** Deleting a retained message (`dbtree_delete_retain`), and what goes with it. */
module RetainDelete {
  import opened Topics
  import opened Nodes
  import opened Tree
  import opened TreeLaws
  import opened Retain

  /**
   * `dbtree_delete_retain`: takes the message of the topic out and prunes. Pruning does not look at
   * retained messages, so those above the topic go too, exactly when nothing else anchors their node.
   */
  method DeleteRetain(db: DbTree, topic: string) returns (was: Msg)
    requires db.Valid()
    modifies db`nodes, db`flat, db.nodes.Values
    ensures db.Valid() && db.nodes.Values <= old(db.nodes.Values) && db.queue == old(db.queue)
    ensures db.flat.live == old(db.flat).live && db.flat.sess == old(db.flat).sess
    ensures WildcardFree(Split(topic)) ==> (old(db.Straight(Split(topic))) <==> Split(topic) in old(db.nodes))
    ensures !old(db.Straight(Split(topic))) ==> db.nodes == old(db.nodes) && db.flat == old(db.flat) && was == NULL
    ensures old(db.Straight(Split(topic))) ==>
      was == if Split(topic) in old(db.flat).retained then old(db.flat).retained[Split(topic)] else NULL
    ensures old(db.Straight(Split(topic))) ==>
      forall p :: p in db.flat.retained <==>
        p in old(db.flat).retained && p != Split(topic) &&
        (p == [] || Anchored(old(db.nodes).Keys, old(db.flat), Split(topic), p))
    ensures old(db.Straight(Split(topic))) ==>
      db.nodes.Keys ==
      set p | p in old(db.nodes).Keys && (p == [] || Anchored(old(db.nodes).Keys, old(db.flat), Split(topic), p))
    ensures forall p :: p in db.flat.retained ==> db.flat.retained[p] == old(db.flat).retained[p]
  {
    hide DbTree.Valid, Linked, Kept, SplitFrom, Anchored, DbTree.Tidy, DbTree.Straight;
    var f := TopicParse(topic);
    if WildcardFree(f) { db.StraightIff(f); }
    var found, buf, vec := db.FindStraight(f);
    if !found {
      return NULL;
    }
    RetainedInTree(db);
    was := db.CutRetain(f, buf, vec);
    db.PathsOf();
    forall p | p in old(db.nodes) && p != []
      ensures p in db.nodes <==> Anchored(old(db.nodes).Keys, old(db.flat), f, p)
    {
      AnchoredStay(db, old(db.nodes).Keys, f, p);
      AnchoredSame(old(db.nodes).Keys, old(db.flat), db.flat, f, p);
    }
  }
}
