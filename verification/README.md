# The NanoMQ broker core, modelled and verified in Dafny

NanoMQ keeps its subscriptions in a mutable tree keyed by topic level, mirrors
them in per-connection topic lists and per-client option lists, and queues
messages for clients that are away. This project models that core and the small
self-contained libraries around it, and proves that each of them is what it is
meant to be.

**The subscription tree.** `Vec.dfy`, `Topic.dfy` and `Nodes.dfy` hold the
vectors, the comparators, the topic levels and the layout of a node (wildcard
children in front, named ones ascending, records descending by id). `Tree.dfy`
is the tree itself: nodes on the heap, changed in place, tied by an invariant to
flat maps from (filter, pipe) and (filter, session) to contexts. `TreeLaws.dfy`
proves that the records determine a minimal tree and which nodes a removal leaves,
`TreeRuns.dfy` states the whole for every run from the empty tree. `Order.dfy` is the
order in which filters are met, `Publish.dfy` the two-buffer level walk with the offline
queues, `Dedup.dfy` the deduplication of contexts, `Retain.dfy` and `RetainDelete.dfy`
the retained messages, and `RetainRuns.dfy` whole runs of those.

**The session life cycle.** `Sessions.dfy` and `Reconnect.dfy` are a state
machine over the tree's records, the topic lists and the contexts, with the
agreement of the three as its invariant; `Runs.dfy` proves for every run exactly when
it holds, and the conservation of offline messages, `ContextRuns.dfy` what becomes of
the options of every owner and of the contexts. `Hash.dfy`, `Options.dfy` and
`Broker.dfy` are the tables, the option lists and the handlers, each handler proved to
take exactly its step of the machine; `BrokerRuns.dfy` drives the handlers through
whole runs and states what they return and what the tree's queue holds.

**The libraries.** `Lmq.dfy` (ring queue, with `Bits.dfy`), `Packet.dfy` (integer
codec), `Base64.dfy`, and cJSON: `Siblings.dfy` (the child list),
`JsonString.dfy` and `JsonScan.dfy` (strings), `Json.dfy` (values: what printing
writes and what parsing reads), `JsonText.dfy` (the grammar of RFC 8259: everything in
it is read, everything printed is in it, and so the round trip), `JsonPrint.dfy` and
`JsonParse.dfy` (the buffers, offsets and loops), `JsonReparse.dfy` (accepted texts
that were not printed).

State that the source updates in place is a class with `modifies` clauses; loops
stay loops. Specification functions and lemmas carry what is promised about them.

## Where the code departs from its intent

The intended behaviour and the literal one are both modelled, by a parameter where the
code would change, with the exact condition under which they agree and a concrete input
on which they do not.

- `nanolib/mqtt_db.c:679` resumes an insertion at the level it has just matched.
  Parameter `restart` of `Tree.DbTree.Locate`, the insertions built on it and
  the runs: 0 is the code as written, 1 the level after. A filter lands in place as
  written if and only if the walk does not stop at a childless node above its last
  level. Over runs: `TreeRuns.InPlaceIff`. Input: `TreeLaws.MisplacedFilter`. The
  broker layer uses 1.
- `nanolib/mqtt_db.c:1034-1040` inserts at an index equal to the size, which
  `cvector_insert` ignores. Parameter `append`. Condition: `Dedup.PassingOnceIff` on the
  records, `Order.LowRepeatIff` on the subscriptions. Input: `TreeRuns.ServedTwice`.
- `nanolib/mqtt_db.c:1602` leaves the loop after one node. Parameter `all` of
  `Retain.FindRetain`, which states the condition. Input: `RetainRuns.LostBranch`.
- `nanolib/mqtt_db.c:1234-1235` prunes without looking at retained messages; this is
  modelled as it is, with the exact set of messages that survive a deletion. Condition
  over runs: `RetainRuns.PlainIff`. Input: `RetainRuns.LosingRun`.
- `nanolib/nano_lmq.c:193` stores an unmasked write position. Parameter `masked`.
  Condition over runs: `Lmq.Drive`. Input: `Lmq.FilledRing`.
- A second connection of a client may leave its session behind on top of the first
  one's (`nanomq/sub_handler.c:572-592`). Condition over runs: `Runs.AgreementIff`.
  Input: `Runs.SessionsCollide`. If both listed the same filters the records agree, but
  the second context is never freed. Condition over runs: `ContextRuns.NoLeakIff`.
  Input: `ContextRuns.ContextLeft`.
- A lookup in the topic tables stores a NULL entry for a pipe that has none
  (`nanolib/hash.cc:29-33`), and `check_id` tests for the entry, not for its list. So a
  pipe that only unsubscribed wipes the cached list of its session
  (`nanomq/sub_handler.c:580`, `nanolib/hash.cc:503-507`). Condition over runs:
  `Runs.AgreementIff`. Input: `Runs.SessionWiped`.
- Restoring a cached entry that lists nothing reads a context that was never set
  (`nanomq/sub_handler.c:598-613`). What it holds is the parameter `unset`. Condition:
  `Reconnect.DefinedAfterIff`, and for what the write may hit
  `Reconnect.RestoredKeepsInvIff`. Inputs: `Runs.UnsetContext`, `Runs.StrayWrite`.
- The id comparators subtract uint32 values into an int. They order ids only within
  a window of 2^31, which is the precondition `InWindow` of every operation on ids.
  Input: `Entries.IdCmpCyclic`.
- A JSON string may hold a NUL after parsing, where C code takes it to end. Condition:
  `JsonReparse.Reparse`. Input: `JsonReparse.CutAtNul`.
- The matching relation is the code's: `#` stands for one or more levels, so it does
  not match its parent level as section 4.7.1.2 of MQTT 3.1.1 says, and topics that
  start with `$` are not special (section 4.7.2). A retained lookup does take the
  parent level of a `#`, if something lies below it.
- A publish of quality 0 queues a NULL message for absent sessions
  (`nanolib/mqtt_db.c:917-919`); `Publish.SearchClient` covers it, and only a non-NULL
  message is counted.

## What is assumed

Contexts and messages are opaque handles, 0 being NULL. A public call of the tree or
the tables is one atomic step.
Client-id hashes are distinct ids and pipe ids of new connections are fresh. What
`strtod` takes of a run of number characters is a parameter of the JSON parser, and a
number is the token it is printed as. A parsed text ends in a NUL that belongs to the
buffer, as `cJSON_Parse` arranges. Allocation succeeds.

## Model

| member | source | states |
|---|---|---|
| `Vectors.CVector.Insert` | nanolib/include/cvector.h:208-228 | On the buffer and its stored size: empty vectors append, an index inside shifts the tail, an index at or past the end of a non-empty vector changes nothing; growing keeps the contents |
| `Vectors.CVector.Erase` | nanolib/include/cvector.h:103-116 | Exactly the element at the index goes, by shifting in place; an index past the end changes nothing |
| `Vectors.CVector.PushBack` | nanolib/include/cvector.h:155-186 | The contents grow by the value at the end, whether or not the buffer had to grow |
| `Vectors.CVector.PopBack` | nanolib/include/cvector.h:88-96 | The last element goes and the rest stays |
| `Vectors.BinarySearch` | nanolib/mqtt_db.c:80-126 | A hit, or the true insertion point: everything before it compares smaller and everything from it on larger; index 0 if nothing lies at or after `left` |
| `Entries.IdCmpExact` | nanolib/include/mqtt_db.h:73-110 | The uint32 subtraction converted to int is the difference of the ids if and only if they are less than 2^31 apart, and zero if and only if they are equal |
| `Entries.IdCmpCyclic` | nanolib/include/mqtt_db.h:73-110 | Over all ids the comparator is cyclic, so no vector order exists without a window |
| `Entries.ComparatorOrders` | nanolib/include/mqtt_db.h:73-110 | In a window of 2^31 ids the comparator orders every descending vector for binary search |
| `Entries.FindEntry` | nanolib/mqtt_db.c:80-126 | Found if and only if the id is there; otherwise the one index that keeps the vector descending |
| `Entries.InsertEntry` | nanolib/mqtt_db.c:488-511 | The vector stays strictly descending, gains the record if its id is new and is unchanged if it is not |
| `Entries.EraseEntry` | nanolib/mqtt_db.c:1148-1182 | Exactly the record with the id goes and is returned; the vector stays descending |
| `Strings.StrCmpTransitive` | nanolib/include/mqtt_db.h:59-65 | The order of child names is transitive, which sorted children rest on |
| `Strings.StrCmpIff` | nanolib/include/mqtt_db.h:59-65 | The order of child names is that of a dictionary: a name comes first if it ends, or has the smaller character, where the two part |
| `Topics.TopicParse` | nanolib/mqtt_db.c:133-190 | The queue filled level by level is the split at `/`; every slot counted beforehand is written and none past it |
| `Topics.JoinSplit` | nanolib/mqtt_db.c:157-190 | Joining the levels gives back the topic, and no level holds a separator |
| `Topics.SplitInjective` | nanolib/mqtt_db.c:157-190 | Distinct topics have distinct levels, so the tree can tell filters apart |
| `Topics.MatchesIff` | nanolib/mqtt_db.c:890-979 | The matching relation level by level: a final `#` takes what is left if there is anything, `+` one level, a name its equal |
| `Nodes.NamesOrdered` | nanolib/mqtt_db.c:317-335 | The children after the wildcards are ordered for the search by name |
| `Nodes.PlaceWild` | nanolib/mqtt_db.c:550-617 | A new `+` or `#` child at the front keeps the layout, with the other wildcard's position moved up |
| `Nodes.PlaceName` | nanolib/mqtt_db.c:550-617 | A named child at its insertion point keeps wildcards in front and names strictly ascending |
| `Nodes.EraseLayout` | nanolib/mqtt_db.c:1227-1272 | Erasing any child keeps the layout, with `plus` and `well` cleared or shifted |
| `Nodes.LayoutUnique` | nanolib/include/mqtt_db.h:31-40 | The child vector alone determines `plus` and `well` |
| `Tree.DbTree.constructor` | nanolib/mqtt_db.c:385-447 | An empty tree: sound, minimal, one root, no record |
| `Tree.DbTree.FindNext` | nanolib/mqtt_db.c:317-335 | Finds the named child if and only if the tree has it, else its insertion point among the names |
| `Tree.DbTree.NodeInsert` | nanolib/mqtt_db.c:549-617 | Walks one level at a time from a node and creates what is missing; old nodes keep their place, their records and the order of their old children, new ones lie on the way |
| `Tree.DbTree.Walk` | nanolib/mqtt_db.c:629-689 | Where the search of an insertion ends and which levels remain, for every shape of tree, with the resumed level as a parameter |
| `Tree.DbTree.Locate` | nanolib/mqtt_db.c:629-689 | The node handed to the inserter is the node of the filter, as intended always, as written exactly when the walk does not stop at a childless node above the last level |
| `Tree.DbTree.LandsInPlaceIff` | nanolib/mqtt_db.c:669-689 | The exact condition for line 679: an insertion lands at its filter if and only if it resumes one level on or no walk stops early |
| `Tree.DbTree.InsertClient` | nanolib/mqtt_db.c:488-511 | Refines adding one (filter, pipe, context) triple to a flat map, keeps a pipe already there, leaves every other triple, and keeps layout and minimality |
| `Tree.DbTree.RestoreSession` | nanolib/mqtt_db.c:700-795 | Refines moving the (filter, session) triple to (filter, pipe) with its context, exactly when there is one; minimality is kept for a cached session |
| `Tree.DbTree.InsertRetain` | nanolib/mqtt_db.c:1511-1532 | Sets the retained message at the node of the topic and returns the old one, all else unchanged |
| `Tree.DbTree.DeleteNode` | nanolib/mqtt_db.c:1227-1272 | Removes a child if and only if it has no child, client or session, keeps the layout of the rest, and drops that child's retained message with it |
| `Tree.DbTree.FindTrail` | nanolib/mqtt_db.c:1391-1434 | The way to a filter is found if and only if the tree has its node, and the recorded nodes and indices lead there |
| `Tree.DbTree.Prune` | nanolib/mqtt_db.c:1466-1476 | Pruning upwards removes only nodes on the way, keeps everything live, and leaves no node on the way without child, client or session |
| `Tree.DbTree.SearchAndDelete` | nanolib/mqtt_db.c:1376-1485 | Refines removing a client, removing a session or caching a client on the flat maps, returns the context removed, leaves every other triple despite pruning, and changes nothing for an unknown filter |
| `TreeLaws.SortedUnique` | nanolib/mqtt_db.c:488-511 | A descending vector is determined by its records |
| `TreeLaws.MinimalKeys` | nanolib/mqtt_db.c:1227-1272 | In a minimal tree a node exists if and only if some filter in use lies at or below it, so the records determine the nodes |
| `TreeLaws.SubscribeUnsubscribe` | nanolib/mqtt_db.c:629-689 | Inserting a fresh subscription and deleting it leaves the identical tree: nodes, child order, wildcard positions and all vectors |
| `TreeLaws.MisplacedFilter` | nanolib/mqtt_db.c:679 | As written, subscribing to `a` and then to `a/b` stores the second filter at `a/a/b` |
| `TreeRuns.Drive` | nanolib/mqtt_db.c:629-795 | After any run of inserts, deletes, caches, session removals and restores from the empty tree, as intended and as written, with wildcards and with restores of sessions that are not cached, it is sound, and holds exactly the records and has exactly the nodes that the operations give at the places where they worked; all states are those of the plain run if and only if every insertion worked in place; the tree is minimal if restores name cached sessions |
| `TreeRuns.PublishAfter` | nanolib/mqtt_db.c:1055-1110 | After any such run a publish finds exactly the records whose filters, where they were put, match under the flat predicate, in the order of those filters, serves the deduplicated contexts, and queues one message for each absent session that matches and for no other; as written it serves a pipe twice under the exact condition on the subscriptions; as intended, or if no insertion is cut short, the subscriptions are those of the plain run |
| `TreeRuns.Do` | nanolib/mqtt_db.c:629-795 | One operation does what it does at its own filter, for every filter, if and only if it is not an insertion whose walk, as written, stops early |
| `TreeRuns.InPlaceIff` | nanolib/mqtt_db.c:669-689 | A run goes through the states of the plain run if and only if all its insertions land in place; they do if no level above the last one of a filter has a node with nothing below it, and without wildcards only then |
| `TreeRuns.PutElsewhere` | nanolib/mqtt_db.c:679 | A filter that does not land in place gets a new node one level deeper, at a path that had none |
| `TreeRuns.StopsIff` | nanolib/mqtt_db.c:669-689 | A walk stops early only if a level above the last one has a node with nothing below it; without wildcards in the filter, if and only if |
| `TreeRuns.Remove` | nanolib/mqtt_db.c:1376-1485 | A removal leaves exactly the nodes that something still anchors, whatever stray nodes the tree holds |
| `TreeRuns.ServedTwice` | nanolib/mqtt_db.c:1034-1040 | After four subscriptions that overlap, a publish to `a` as written serves the contexts 90, 30, 80 and 30 again |
| `TreeRuns.ServedOnce` | nanolib/mqtt_db.c:908-970 | With the lowest pipe on `#`, which is met first, a publish to `a` as written serves 30 and 90 once each |
| `TreeLaws.AnchoredStay` | nanolib/mqtt_db.c:1234-1272 | After a removal at a filter a node is left if and only if something at or below it lies off the filter's way or holds a client or session |
| `Publish.Visit` | nanolib/mqtt_db.c:890-979 | The children of one node that match the next level, split exactly into those whose records count now and those to search further, each in the order `#`, `+`, name |
| `Publish.CollectClients` | nanolib/mqtt_db.c:890-979 | One level of the walk, over all nodes of a buffer: the hits and the next buffer are exactly the wanted children, each once, in the order in which the buffer is emptied from its end, and the session list holds each absent session of a hit once |
| `Publish.LevelStep` | nanolib/mqtt_db.c:1055-1110 | The next buffer lists, once each, exactly the nodes one level deeper whose filters match so far |
| `Publish.MatchedStep` | nanolib/mqtt_db.c:890-979 | The hits so far are, once each, exactly the nodes up to this depth whose filters match the topic |
| `Publish.MatchedAll` | nanolib/mqtt_db.c:1067-1090 | A walk that runs out of nodes early has missed nothing |
| `Publish.WalkLevels` | nanolib/mqtt_db.c:1067-1090 | The two-buffer walk ends with exactly the nodes whose filters match, in the order of the walk, each contributing its clients once |
| `Order.AheadIff` | nanolib/mqtt_db.c:908-970 | Of two matching filters of one length the first level in which they differ decides, `#` before `+` before the name, and every level below it turns the order round |
| `Order.SomeAhead` | nanolib/mqtt_db.c:908-970 | Two filters of one length that match a topic are in this order one way round and not the other |
| `Publish.WalkGathers` | nanolib/mqtt_db.c:890-979 | The records gathered are those of the matching subscriptions, filters in the order of the walk and the pipes of one filter by descending id |
| `Order.GatheredUnique` | nanolib/mqtt_db.c:1055-1110 | What a publish gathers, and so what it returns, follows from the subscriptions alone, whatever the history of the tree |
| `Order.LowRepeatIff` | nanolib/mqtt_db.c:1034-1040 | As written a publish serves a pipe twice if and only if one with a lower id than that of the first subscription met has two filters that match |
| `Publish.RecordsAreMatches` | nanolib/mqtt_db.c:890-979 | A record is gathered if and only if it is stored under a filter that matches the topic |
| `Publish.OfflineAreMatches` | nanolib/mqtt_db.c:797-834 | A session is queued for if and only if one of its filters matches the topic |
| `Publish.InsertSessionMsg` | nanolib/mqtt_db.c:797-834 | Each session of a node gets one entry in the list of this publish, however many of its filters match; the list stays descending |
| `Publish.InsertSessionMsgList` | nanolib/mqtt_db.c:840-877 | Every queue grows by exactly the messages listed for it, at the end |
| `Publish.SearchClient` | nanolib/mqtt_db.c:1055-1110 | A publish gathers exactly the matching records in the order of the walk, returns the deduplicated contexts, adds one message to the queue of each absent session that matches and to no other, and counts those entries |
| `Publish.SearchSession` | nanolib/mqtt_db.c:1275-1309 | A drain returns the session's messages in arrival order and only those, and empties that queue alone |
| `Publish.CacheSessionMsg` | nanolib/mqtt_db.c:1118-1139 | One message is added at the end of one queue |
| `Dedup.IterateClient` | nanolib/mqtt_db.c:1022-1053 | The sorted deduplication returns the first record of each pipe, in order, if ids that belong last are appended; as written, what `Passing` says |
| `Dedup.IterateClientOld` | nanolib/mqtt_db.c:987-1020 | The quadratic form returns the same contexts in the same order as the sorted form with appending |
| `Dedup.FirstSeenExact` | nanolib/mqtt_db.c:987-1020 | One record per pipe id, every pipe id kept, nothing invented |
| `Dedup.SurvivorsAre` | nanolib/mqtt_db.c:1022-1053 | The records served, in the order gathered, are those whose id is new and, as written, those whose id is below the first one |
| `Dedup.PassingKeepsAll` | nanolib/mqtt_db.c:1034-1040 | As written no pipe id is lost |
| `Dedup.PassingExactIff` | nanolib/mqtt_db.c:1034-1040 | As written the result is that of the quadratic form if and only if no id below the first one occurs twice |
| `Dedup.PassingOnceIff` | nanolib/mqtt_db.c:1034-1040 | As written every pipe is served once if and only if no id below the first one occurs twice |
| `Retain.CollectRetains` | nanolib/mqtt_db.c:1582-1657 | One level of the retained lookup, a name, `+` or `#`: exactly the children the level allows, each once and in the order in which the buffer is emptied, or at a `#` the chosen parents swept, with the nodes that are left over as written |
| `Retain.FindRetain` | nanolib/mqtt_db.c:1659-1695 | For every filter the messages at the nodes found, each once and in order: exactly those looked up when it holds no `#` or the loop goes through all nodes; as written, with a `#` at the end, exactly those at or below the parent that stands last in the buffer, which is all of them if and only if at most one parent is to be swept |
| `Retain.CollectRetainWell` | nanolib/mqtt_db.c:1534-1571 | The row by row sweep ends, and meets every node at or below the given one exactly once, by depth and in one depth from parent to parent |
| `Retain.CollectWell` | nanolib/mqtt_db.c:1600-1604 | At a `#` every parent is swept or, as written, the last one in the buffer that has children, if there is one |
| `Order.LeftIff` | nanolib/mqtt_db.c:1582-1657 | Without wildcards in the topics, which of two nodes stands first follows from the first level in which they differ, by the order of a dictionary: turned round with every level below it in the walk, and not in a sweep |
| `Retain.LookedUpIsMatched` | nanolib/mqtt_db.c:1600-1604 | A `#` at the end looks up what a publish would match, and the parent level too if something lies below it |
| `RetainDelete.DeleteRetain` | nanolib/mqtt_db.c:1697-1784 | Returns the message and removes it, for every topic the walk finds (without wildcards: every topic of the tree); the nodes and the messages of the levels above survive if and only if something else anchors their node, and nothing else changes |
| `RetainRuns.Drive` | nanolib/mqtt_db.c:1511-1784 | After any run of retained messages put and deleted from the empty tree, as intended and as written, exactly the messages and nodes of the run are left; they are those of a plain map from topics to messages all the way if and only if no operation does harm |
| `RetainRuns.PlainIff` | nanolib/mqtt_db.c:1234-1272 | A run keeps to the plain map if and only if every message is put at its topic, every removal finds the topic it is for, and none has a message above it whose node leads nowhere else |
| `RetainRuns.Do` | nanolib/mqtt_db.c:1511-1784 | One operation takes the step of the run and returns the message that was there |
| `RetainRuns.LosingRun` | nanolib/mqtt_db.c:1234-1235 | Putting `a` and `a/b` and deleting `a/b` leaves nothing, where the plain map keeps the message of `a` |
| `RetainRuns.LostAncestor` | nanolib/mqtt_db.c:1234-1235 | A lookup of `a` finds its message before that deletion and nothing after it |
| `RetainRuns.LostBranch` | nanolib/mqtt_db.c:1602 | With messages at `a/x` and `b/y`, as written a lookup of `+/#` returns what lies below `b`, the parent that stands last, and misses the other; going on after the first node returns both |
| `Tree.DbTree.FindStraight` | nanolib/mqtt_db.c:1724-1753 | The way down without looking for wildcards by position: found if and only if every level is the first child or a named one |
| `Options.MergeContext` | nanomq/sub_handler.c:381-465 | The loops compute the fold `Merge` of the packet over the stored list |
| `Options.RemoveFilter` | nanomq/sub_handler.c:467-505 | The loop computes `Remove` |
| `Options.MergeExact` | nanomq/sub_handler.c:381-465 | After a packet the list has no repeated filter, lists what either listed, and carries the packet's last options for each filter it names |
| `Options.RemoveExact` | nanomq/sub_handler.c:467-505 | A removal takes exactly its filter and keeps the options of the rest |
| `Options.RemoveAllExact` | nanomq/sub_handler.c:467-505 | Removing several filters takes exactly those and keeps the options of the rest |
| `Options.RunExact` | nanomq/sub_handler.c:381-505 | After any sequence of packets and removals no filter repeats and each carries the options of the last packet that named it since its last removal |
| `Options.RunOrder` | nanomq/sub_handler.c:381-505 | After any such sequence the list is in first-seen order |
| `Hash.TopicTables.AddTopic` | nanolib/hash.cc:339-353 | The pipe's list gets the topic behind its first one, no other list changes, and unlinking the topic would give the list back |
| `Hash.TopicTables.GetTopic` | nanolib/hash.cc:385-393 | The pipe's list; a pipe without an entry gets one that lists nothing |
| `Hash.TopicTables.CheckTopic` | nanolib/hash.cc:361-378 | True if and only if the pipe's list holds the filter |
| `Hash.TopicTables.DelTopicOne` | nanolib/hash.cc:400-437 | Unlinks the filter; the entry goes if that was its one filter, and a pipe without an entry gets one that lists nothing |
| `Hash.TopicTables.DelTopicAll` | nanolib/hash.cc:444-455 | The pipe has no entry afterwards, every other pipe the entry it had before |
| `Hash.TopicTables.CacheTopicAll` | nanolib/hash.cc:499-509 | The client's entry becomes the pipe's list, empty or not, in place of whatever it was, and the pipe has none; no other entry changes in either table |
| `Hash.TopicTables.RestoreTopicAll` | nanolib/hash.cc:518-528 | The pipe's entry becomes the client's list and the client has none; no other entry changes in either table |
| `Hash.EntryIs` | nanolib/hash.cc:339-528 | A table is determined by one entry, there or not, and by the others |
| `Hash.TopicTables.AddThenDelete` | nanolib/hash.cc:339-437 | Deleting a topic just added leaves every list as it was, and the table itself if and only if the pipe did not have an entry that listed nothing |
| `Hash.TopicTables.CacheThenRestore` | nanolib/hash.cc:499-528 | A list cached and restored under another pipe is that pipe's, in the same order, and no other list changes; under the same pipe both tables are as they were if and only if the pipe had an entry and the client had none |
| `Sessions.SubscribeKeepsInv` | nanomq/sub_handler.c:274-379 | SUBSCRIBE keeps the agreement of list, tree and context for every owner, adds exactly the packet's filters, merges its options into the owner's one context, touches no other owner, and allocates no context but that one |
| `Sessions.SubscribeOrder` | nanolib/hash.cc:339-353 | A first SUBSCRIBE lists its first filter, and then the others from the last one on |
| `Sessions.UnsubscribeOneKeepsInv` | nanomq/unsub_handler.c:201-249 | Removing one filter keeps the agreement, takes exactly that filter, leaves the options of the others, frees the context with the last filter and no other context, and the reason code is 0x00 if it was held and 0x11 if not |
| `Sessions.UnsubscribeKeepsInv` | nanomq/unsub_handler.c:201-249 | UNSUBSCRIBE keeps the agreement, takes exactly the named filters, and touches the options of no one else |
| `Sessions.UnsubscribeKeepsOpts` | nanomq/sub_handler.c:486-505 | Every filter that stays keeps its options |
| `Sessions.ClearedKeepsInv` | nanomq/apps/broker.c:254-279 | The deletion loop of a disconnect leaves the pipe nothing anywhere, frees its context and no other, and leaves every other owner untouched |
| `Reconnect.CachedMoves` | nanomq/sub_handler.c:572-592 | Caching moves exactly the pipe's filters, entries and context to the session and touches no one else |
| `Reconnect.RestoredMoves` | nanomq/sub_handler.c:594-618 | Restoring moves exactly the session's filters, entries and context to the new pipe and rewrites the pipe id in the context |
| `Reconnect.MovedKeepsInv` | nanomq/sub_handler.c:572-618 | Such a move keeps the agreement of all records |
| `Reconnect.SessionRoundTrip` | nanomq/sub_handler.c:572-618 | Caching and restoring, where the restore sets its context, gives the new pipe the same list, entries, context and options; in between the session and no live client is found at those filters |
| `Reconnect.CachedKeepsInvIff` | nanomq/sub_handler.c:572-592 | Caching keeps the records in agreement if and only if the pipe has no entry, the session lists nothing, or both list the same set |
| `Reconnect.RestoredKeepsInvIff` | nanomq/sub_handler.c:594-618 | Restoring to a pipe without filters keeps the records in agreement if and only if an unset context is not read or is not that of a connected pipe |
| `Reconnect.DefinedAfterIff` | nanomq/sub_handler.c:580-613 | The restore after a persistent disconnect sets the context that it uses if and only if the pipe left a list that is not empty, or left no entry over a session that was fit to restore |
| `Runs.AgreementIff` | nanomq/apps/broker.c:220-283 | For every run of connects (second connections of a client included), disconnects, subscribes, unsubscribes, publishes and drains: the three records of every owner agree in all its states if and only if every persistent disconnect caches no entry, onto nothing, or onto the very same filters, and no connect writes through an unset context into that of a connected pipe |
| `Runs.DisconnectStep` | nanomq/apps/broker.c:251-283 | From an agreeing state a disconnect leads to an agreeing one if and only if it fits |
| `Runs.ConnectStep` | nanomq/sub_handler.c:594-618 | From an agreeing state a connect leads to an agreeing one if and only if it fits |
| `Runs.SessionsCollide` | nanomq/sub_handler.c:572-592 | A run of two connections of one client, on `a` and on `b`, that both leave their session behind ends with records that do not agree |
| `Runs.SessionWiped` | nanomq/sub_handler.c:580 | A second connection that only unsubscribes leaves an entry which lists nothing; its persistent disconnect wipes the list that the first one left, while the tree keeps the session |
| `Runs.UnsetContext` | nanomq/sub_handler.c:598-613 | One connection that unsubscribes and leaves its session behind is followed by a restore that reads an unset context |
| `Runs.StrayWrite` | nanomq/sub_handler.c:613 | In such a state the restore breaks agreement if the unset context is that of a connected pipe |
| `Runs.OfflineConservation` | nanolib/mqtt_db.c:797-877 | In every run, up to and including the first event that does not fit, what a session has been handed followed by what waits for it is what was published while a filter of its cached topic list matched, in order |
| `Runs.ListenersAreListed` | nanolib/mqtt_db.c:1055-1110 | A publish reaches an owner if and only if the owner's topic list holds a matching filter |
| `ContextRuns.OptionsExact` | nanomq/sub_handler.c:274-618 | After every run that fits the option list of every owner, connected or away, is what the packets that concern it made it, in their order, as the subscriptions moved from pipe to session and back |
| `ContextRuns.LatestOptions` | nanomq/sub_handler.c:274-618 | So each filter listed carries the options of the last packet that named it since it was last removed, and no other filter has any |
| `ContextRuns.SubsStep` | nanomq/apps/broker.c:220-283 | One event that fits merges, removes, hands over or drops the options of the one owner it concerns; a session that has options keeps its own |
| `ContextRuns.NoLeakIff` | nanomq/apps/broker.c:220-283 | In a run that fits every context allocated belongs to an owner with filters in all states if and only if no packet without filters comes from a pipe without filters and no persistent disconnect caches filters onto a session that has some |
| `ContextRuns.LeakStep` | nanomq/sub_handler.c:274-618 | From a state in which all contexts are in use an event that fits leads to another one under exactly that condition |
| `ContextRuns.ContextLeft` | nanomq/sub_handler.c:572-592 | Two connections of one client on the same filter that both leave their session behind: the records agree, but one context is nobody's |
| `Broker.Handlers.Subscribe` | nanomq/sub_handler.c:274-379 | The handler takes exactly the SUBSCRIBE step of the machine on tree, hash and contexts, and keeps them in agreement |
| `Broker.Handlers.MergeIntoContext` | nanomq/sub_handler.c:274-340 | Finds the pipe's context through its first filter, or makes one, and merges the packet; nothing else changes |
| `Broker.Handlers.Unsubscribe` | nanomq/unsub_handler.c:201-249 | The handler takes exactly the UNSUBSCRIBE step; the code for a filter is 0x00 if the pipe held it and it was not named before, and 0x11 otherwise |
| `Broker.Handlers.DelSubCtx` | nanomq/sub_handler.c:467-523 | The filter goes from the context, the others keep their options, and a context left without filters goes too |
| `Broker.Handlers.Cache` | nanomq/sub_handler.c:572-592 | `cache_session` takes exactly the caching step, for a pipe with an entry, empty or not, and for one without |
| `Broker.Handlers.Disconnect` | nanomq/apps/broker.c:251-283 | The branch takes the disconnect step, clean or persistent; agreement holds afterwards if and only if the disconnect is clean or the cached session fits |
| `Broker.Handlers.Connect` | nanomq/sub_handler.c:594-618 | `restore_session` takes exactly the restoring step, with the unset context as a parameter; for a pipe without filters agreement holds afterwards if and only if that does not hit the context of a connected pipe |
| `Broker.Handlers.Send` | nanolib/mqtt_db.c:1055-1110 | A publish returns exactly the contexts of the pipes whose topic lists hold a matching filter, in the order of the walk, each once under the exact condition on the topic lists, and queues one message for each absent client that matches |
| `Broker.MetTwiceIff` | nanolib/mqtt_db.c:1034-1040 | The condition under which a pipe is served twice, in terms of the topic lists: a pipe with a lower id than the one met first lists two filters that match |
| `Broker.Handlers.Drain` | nanolib/mqtt_db.c:1275-1315 | A drain returns what the tree queues for the session, in order, and empties that queue alone; no record changes |
| `BrokerRuns.Do` | nanomq/apps/broker.c:220-283 | Each event, by its handler, whether it fits or not, takes the machine's step on tree, tables, contexts and queue, and is answered rightly: the contexts served, their order and when none is served twice, the reason codes, the messages handed over |
| `BrokerRuns.Drive` | nanomq/apps/broker.c:220-283 | The handlers over any run, up to and including the first event that does not fit, from the empty broker: their state is the machine's, the records agree if and only if every event fits, every answer is right, and for each session what its drains returned followed by what the tree still queues is exactly what it is owed by its topic lists |
| `Broker.RecordCtx` | nanomq/sub_handler.c:274-379 | A record found for a pipe carries that pipe's one context, if and only if the pipe lists a matching filter |
| `Broker.DeliveredTo` | nanolib/mqtt_db.c:1055-1110 | A context is served if and only if it belongs to a pipe whose list holds a matching filter |
| `Broker.ServedOnceIff` | nanolib/mqtt_db.c:1022-1053 | No context is served twice if and only if late ids are appended or no low id repeats |
| `Broker.PipesApart` | nanomq/sub_handler.c:274-379 | Two matching records have the same pipe if and only if they have the same context |
| `Bits.MaskIsModulo` | nanolib/nano_lmq.c:135-159 | Masking with a power of two less one is the remainder |
| `Lmq.RoundUp` | nanolib/nano_lmq.c:16-41 | The allocation is the least power of two, from 2 on, that holds the capacity |
| `Lmq.Queue.constructor` | nanolib/nano_lmq.c:16-41 | A new queue is sound and empty |
| `Lmq.Queue.PutQ` | nanolib/nano_lmq.c:135-145 | Appends below the capacity, refuses at it; positions stay in the ring |
| `Lmq.Queue.GetQ` | nanolib/nano_lmq.c:147-159 | Takes the oldest message, or reports an empty queue |
| `Lmq.Queue.Flush` | nanolib/nano_lmq.c:84-93 | Empties the queue |
| `Lmq.Queue.Resize` | nanolib/nano_lmq.c:161-197 | Keeps the oldest messages that fit, in order; as written the write position stays in the ring if and only if the new ring is not filled to its last slot |
| `Lmq.Drive` | nanolib/nano_lmq.c:16-197 | Every run of puts, gets, flushes and resizes on a new ring comes to a put at a position outside the ring if and only if the history of the queue says so (the first accepted put after a filling resize, with no resize between), and answers as a bounded FIFO does until then; never with the position masked |
| `Lmq.FilledRing` | nanolib/nano_lmq.c:193 | A concrete resize and get after which a put would be accepted at a position outside the ring |
| `Lmq.FilledRun` | nanolib/nano_lmq.c:193 | The same run told by the history: its fifth operation is the first to leave the buffer |
| `Lmq.OddSizesNeverFault` | nanolib/nano_lmq.c:161-197 | As written, a run that resizes to no power of two from 2 on never leaves the buffer |
| `Packet.VarLength` | nanolib/packet_parser/packet_parser.c:111-127 | The written form takes 1 to 5 bytes, with the exact thresholds |
| `Packet.VarHolds` | nanolib/packet_parser/packet_parser.c:111-127 | The written form holds the number in groups of seven bits, lowest first, and only its last byte lacks the top bit |
| `Packet.VarExample` | nanolib/packet_parser/packet_parser.c:111-127 | 321 is written as 193 and 2, as section 2.2.3 of MQTT 3.1.1 says |
| `Packet.ReadIs` | nanolib/packet_parser/packet_parser.c:59-76 | What is read of any bytes is the number that their groups of seven bits stand for, modulo 2^32 |
| `Packet.ReadWritten` | nanolib/packet_parser/packet_parser.c:59-127 | Reading a written integer gives it back and consumes exactly its bytes, whatever follows |
| `Packet.ReadFirst` | nanolib/packet_parser/packet_parser.c:59-127 | Integers written back to back are read one by one |
| `Packet.Buffer.WriteVar` | nanolib/packet_parser/packet_parser.c:111-127 | Writes the variable-length form at the position, nothing else, and advances past it |
| `Packet.Buffer.ParseVar` | nanolib/packet_parser/packet_parser.c:59-76 | The loop computes the value of the digits up to the first byte without the top bit |
| `Packet.Buffer.WriteUint32` | nanolib/packet_parser/packet_parser.c:93-101 | Writes four big-endian bytes, nothing else |
| `Packet.Buffer.ParseUint32` | nanolib/packet_parser/packet_parser.c:31-49 | The loop that looks at the value read so far always consumes four bytes and returns their big-endian value |
| `Packet.Clear32` | nanolib/packet_parser/packet_parser.c:31-49 | After a non-zero first byte the top byte is clear until the fourth byte is in, and not after |
| `Packet.Be32RoundTrip` | nanolib/packet_parser/packet_parser.c:31-101 | Parsing inverts writing for every uint32 |
| `Packet.Be32Number` | nanolib/packet_parser/packet_parser.c:93-101 | The four bytes are the number in base 256, highest byte first |
| `Packet.ValueNumber` | nanolib/packet_parser/packet_parser.c:31-49 | Four bytes are read as the number they stand for in base 256 |
| `Packet.ExchangeWord` | nanolib/packet_parser/packet_parser.c:31-101 | Every uint32 written in four bytes is read back by the data-dependent loop |
| `Packet.Exchange` | nanolib/packet_parser/packet_parser.c:59-127 | Any sequence of uint32 values written back to back into a buffer is read back identically |
| `Base64.Encode` | nanomq/libs/base64.c:71-118 | The byte-at-a-time loop writes the group-wise encoding, 4*ceil(n/3) characters, and a terminator |
| `Base64.Decode` | nanomq/libs/base64.c:120-163 | The loop writes the bytes of the characters before the padding, returns 0 for a length not divisible by four or a character outside the alphabet, and never writes at or past 3*(inlen/4) |
| `Base64.EnIs` | nanomq/libs/base64.c:8-17 | The encoding table is the alphabet of section 4 of RFC 4648 |
| `Base64.DeIff` | nanomq/libs/base64.c:20-69 | The decoding table gives a value for the 64 characters of that alphabet and for no other, and the place in it |
| `Base64.TextIs` | nanomq/libs/base64.c:71-118 | The text is the sextets of the input spelled in the alphabet, and one `=` for each byte missing from the last group |
| `Base64.SextetsNumber` | nanomq/libs/base64.c:71-118 | The sextets in base 64 are the number that the bytes are in base 256, filled up with zero bits |
| `Base64.BytesNumber` | nanomq/libs/base64.c:120-163 | The bytes decoded of any sextets are the same number without the bits that fill no byte |
| `Base64.RoundTrip` | nanomq/libs/base64.c:71-163 | Decoding the encoding of any byte string gives it back |
| `Base64.Transfer` | nanomq/libs/base64.c:71-163 | The two loops, one after the other over buffers of the sizes they ask for, return the input |
| `Siblings.ChildrenUnique` | nanomq/libs/cJSON.c:1764-1780 | The pointers determine the sequence of children |
| `Siblings.GetArrayItem` | nanomq/libs/cJSON.c:1764-1780 | The walk returns the child at the index, or NULL past the end |
| `Siblings.AddItemToArray` | nanomq/libs/cJSON.c:1872-1899 | Appends, keeping `next` and `prev` inverse and the head's `prev` at the tail, if and only if the list was empty or the new item points nowhere; no item loses its children and the list keeps its place; refuses NULL and an item added to itself |
| `Siblings.AddList` | nanomq/libs/cJSON.c:1872-1899 | A list appended to another one is appended with its contents |
| `Siblings.DetachItemViaPointer` | nanomq/libs/cJSON.c:2115-2144 | The children become the sequence without the item, which then points nowhere; no item loses its children and the parent keeps its place |
| `Siblings.InsertItemInArray` | nanomq/libs/cJSON.c:2190-2213 | The children become the sequence with the item at the index, or appended past the end under the condition of appending; no item loses its children and the list keeps its place; negative indices change nothing, and neither does NULL or the list itself |
| `Siblings.InsertThenDetach` | nanomq/libs/cJSON.c:2115-2215 | Detaching what was inserted leaves every pointer of the list and of its items as it was |
| `Siblings.ReplaceItemViaPointer` | nanomq/libs/cJSON.c:2215-2256 | The children become the sequence with one item replaced, first, middle, last or only one; no item loses its children and the parent keeps its place |
| `JsonStrings.ParseHex4` | nanomq/libs/cJSON.c:592-619 | The value of four hexadecimal digits of either case, zero if one is no digit |
| `JsonStrings.Utf8RoundTrip` | nanomq/libs/cJSON.c:676-718 | The UTF-8 form of every scalar value decodes to it (section 3 of RFC 3629) |
| `JsonStrings.LiteralRoundTrip` | nanomq/libs/cJSON.c:622-674 | Every code point written as one `\u` sequence or a surrogate pair is read back (section 7 of RFC 8259) |
| `JsonStrings.EscapedLength` | nanomq/libs/cJSON.c:885-914 | The escaped form is as long as counted beforehand, equals the string if nothing was counted, and holds no NUL |
| `JsonStrings.UnescapeEscaped` | nanomq/libs/cJSON.c:729-856 | Both scans of an escaped string end at its closing quote with the string itself, whatever follows |
| `JsonStrings.StringRoundTrip` | nanomq/libs/cJSON.c:729-967 | Every printed string is parsed back, wherever it stands in a buffer |
| `JsonText.PlainIs` | nanomq/libs/cJSON.c:786-835 | What a character stands for behind a backslash is the table of section 7 of RFC 8259, `/` included |
| `JsonText.EscapeIs` | nanomq/libs/cJSON.c:925-960 | How each byte is printed, in characters: the seven short escapes, four lower-case digits for the other control characters, and itself |
| `JsonText.DigitIff` | nanomq/libs/cJSON.c:592-619 | A byte has the value of a hexadecimal digit if and only if it is that digit of either case |
| `JsonText.Utf8Examples` | nanomq/libs/cJSON.c:676-718 | The examples of section 7 of RFC 3629 |
| `JsonText.Utf8Order` | nanomq/libs/cJSON.c:676-718 | UTF-8 forms are ordered byte by byte as their code points are, and none is the start of another |
| `JsonText.NumberCharsAre` | nanomq/libs/cJSON.c:312-381 | The characters that a number may start with and consist of |
| `JsonText.StringRead` | nanomq/libs/cJSON.c:728-856 | Every string of section 7 of RFC 8259, in any mix of bytes, short escapes, digits of either case and surrogate pairs, is parsed as what it stands for |
| `JsonScan.FindEnd` | nanomq/libs/cJSON.c:743-772 | The first scan finds the closing quote and counts the escape pairs, so that it allots one byte a character or pair |
| `JsonScan.AllottedLiteral` | nanomq/libs/cJSON.c:622-726 | A `\u` literal is allotted at least its UTF-8 length even when it takes half of an escape pair with it |
| `JsonScan.Utf16LiteralToUtf8` | nanomq/libs/cJSON.c:622-726 | Writes the UTF-8 form of the literal behind the output and returns its length, or 0 and nothing for a truncated literal or a broken pair |
| `JsonScan.Unescaped` | nanomq/libs/cJSON.c:786-835 | For every input the second scan stays within what the first allotted, terminator included, and computes the decoded string or the failure |
| `JsonScan.ParseString` | nanomq/libs/cJSON.c:728-856 | Succeeds if and only if the literal is closed and well formed, with the decoded string and the offset after the quote |
| `JsonPrint.PrintBuffer.Ensure` | nanomq/libs/cJSON.c:436-506 | Room for the bytes and one more, if and only if the limit allows (the buffer's size, or INT_MAX when it may grow); the text so far is kept |
| `JsonPrint.PrintBuffer.UpdateOffset` | nanomq/libs/cJSON.c:510-520 | The offset moves to the terminator |
| `JsonPrint.PrintBuffer.PrintStringPtr` | nanomq/libs/cJSON.c:859-970 | Writes exactly the quoted, escaped string and its terminator in the precomputed space; a missing string prints as an empty one |
| `JsonPrint.PrintBuffer.PrintValue` | nanomq/libs/cJSON.c:1325-1389 | Behind any prefix and at any depth the text of the value is written, if and only if it and two bytes fit the limit |
| `JsonPrint.PrintBuffer.PrintArray` | nanomq/libs/cJSON.c:1481-1533 | The elements with their separators between brackets, under the same exact condition |
| `JsonPrint.PrintBuffer.PrintObject` | nanomq/libs/cJSON.c:1640-1739 | The members, indented when formatted, between braces, under the same exact condition |
| `Json.RenderClean` | nanomq/libs/cJSON.c:1325-1739 | Printed text holds no NUL, so `strlen` finds its end |
| `JsonPrint.Print` | nanomq/libs/cJSON.c:1142-1203 | Returns the text of the value unless it and two bytes exceed INT_MAX |
| `Json.NumberRoundTrip` | nanomq/libs/cJSON.c:312-381 | A number token is read back as itself if no number character follows |
| `JsonText.ReadValue` | nanomq/libs/cJSON.c:1265-1637 | Every value of the grammar of RFC 8259, with any blanks between its tokens, wherever it stands and at whatever depth, is parsed as the value it stands for, if and only if the nesting limit allows |
| `JsonText.ReadText` | nanomq/libs/cJSON.c:1018-1132 | `cJSON_Parse` reads every text of RFC 8259 as its value, with or without a byte order mark and with any blanks around it, if and only if it nests at most 1000 deep |
| `JsonText.PrintedByGrammar` | nanomq/libs/cJSON.c:1325-1739 | Everything printed, formatted or not, is a text of that grammar and stands for the value printed |
| `JsonText.ListForm` | nanomq/libs/cJSON.c:1481-1533 | The text of a list in characters; formatted, a blank follows each comma |
| `JsonText.ObjectForm` | nanomq/libs/cJSON.c:1640-1739 | The text of an object in characters; formatted, its members stand on lines of their own |
| `JsonText.MemberLine` | nanomq/libs/cJSON.c:1640-1739 | The line of a member: a tab for each brace around it, the name, a colon and a tab, the value, a comma but for the last |
| `JsonText.MemberForm` | nanomq/libs/cJSON.c:1640-1739 | The unformatted text of a member: the name, a colon, the value, a comma but for the last |
| `JsonText.RoundValue` | nanomq/libs/cJSON.c:1265-1739 | A printed value, wherever it stands and at whatever depth, is parsed to itself and the offset after it, if and only if the nesting limit allows |
| `JsonText.RoundTrip` | nanomq/libs/cJSON.c:1265-1739 | Parsing the formatted or unformatted print gives back the same tree if and only if it nests at most 1000 deep, else nothing |
| `JsonParse.ParseBuffer.SkipWhitespace` | nanomq/libs/cJSON.c:994-1015 | The offset moves to the next non-blank, or to the last byte |
| `JsonParse.ParseBuffer.ParseNumber` | nanomq/libs/cJSON.c:312-381 | Takes what `strtod` takes of the run of at most 63 number characters, fails if that is nothing |
| `JsonParse.ParseBuffer.ParseValue` | nanomq/libs/cJSON.c:1265-1322 | For every input succeeds or fails as the grammar function does, with its value, its offset and the depth restored |
| `JsonParse.ParseBuffer.ParseArray` | nanomq/libs/cJSON.c:1392-1478 | The element loop computes the grammar function for lists, for every input and depth |
| `JsonParse.ParseBuffer.ParseObject` | nanomq/libs/cJSON.c:1536-1637 | The member loop computes the grammar function for objects, for every input and depth |
| `JsonParse.ParseText` | nanomq/libs/cJSON.c:1018-1132 | `cJSON_Parse`: the text ends at its first NUL, a byte order mark and leading blanks are skipped, text after the value is ignored |
| `JsonParse.PrintThenParse` | nanomq/libs/cJSON.c:1142-1739 | The printer's buffers and the parser's loops together return the value if and only if it nests at most 1000 deep |
| `JsonReparse.ParsedValue` | nanomq/libs/cJSON.c:1265-1637 | Every parsed value has tokens for numbers and nests at most 1000 deep |
| `JsonReparse.Reparse` | nanomq/libs/cJSON.c:1265-1739 | The value of any accepted text, printed and parsed again, is the value as C reads it; it is the very same value if and only if none of its strings holds a NUL. A number is printed as the token it was read as, where the source formats it anew (`1.0` prints as `1`) |
| `JsonReparse.CutAtNul` | nanomq/libs/cJSON.c:622-726 | A string of one `\u0000` is accepted, and C takes it for an empty one |

## Left out

- Locks, threads and interleavings of the public calls.
- Sockets, pipes, message reference counts, HTTP, the bridge and the command line.
- Decoding of SUBSCRIBE, UNSUBSCRIBE and PUBLISH packets, and MQTT 5 properties.
- The path of a SUBSCRIBE that fails half way (`nanomq/apps/broker.c:328-336`), which clears the topic list only.
- Shared subscriptions and their random choice.
- A child vector that is allocated but empty is the same as none: the removal walks look at its first slot.
- `bridge.c` topic filters, which have no matching specification.
- cJSON number formatting and parsing beyond opaque tokens, raw items, references, object lookup, minifying, allocation hooks and error positions.
- `cJSON_ParseWithLength` on a buffer without a terminator.
- The 16-bit and string forms of the packet codec.
- Reading past the end of a packet buffer: parsing a variable-length integer asks for a terminating byte within five.
- Allocation failure, freeing, `size_t` overflow when a capacity doubles, logging, configuration and files.
- BrokerRuns.Drive: runs are driven up to and including the first event that does not fit; after it the handlers read contexts that no record vouches for.
- Retain.FindRetain: as written, with a `#` before the last level, it says where the nodes found lie but not which messages the nodes left over add.
- Siblings.InsertItemInArray: asks for a new item other than NULL and the list when the index names an item, where the source uses it unchecked.
- Siblings.ReplaceItemViaPointer: does not free the replaced item.
- JsonParse.ParseBuffer.ParseValue: builds the value, not the heap items; how items are linked is modelled in `Siblings`.
- JsonPrint.PrintBuffer.PrintValue: prints values without NUL, so a missing string appears only in `PrintStringPtr`.
- Broker.Handlers.Connect: states when agreement holds for a pipe without filters; a pipe id in use is outside the life cycle. A write through an unset context that is no context at all is not modelled.
- JsonReparse.Reparse: a number keeps the token it was read as; the source formats it anew, so its second text may differ.
