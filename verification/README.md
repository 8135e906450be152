# Verified model of ds4

This project models the parts of ds4, a local inference server for one model family, that are
hardest to get right by reading, and proves what they are for.

- **Radix tree** (`Rax*.dfy`): nodes changed in place, with compressed runs, inline leaves under a
  13-bit bitmap, and parents. Everything is proved against a finite map and its sorted key list.
- **Tool memory** (`ToolMemory*.dfy`): two indexes, an LRU list and reference-counted shared blocks,
  proved against a plain list of records.
- **Job server** (`JobServer.dfy`): client threads, one worker, and the main thread with its
  shutdown, as a state machine whose steps are the sections under a mutex and the waits.
- **Streams** (`Stream*.dfy`, `StopStream.dfy`): the incremental translation of generated markup into
  reasoning, content and tool-call deltas, and the cut at stop sequences.
- **JSON and DSML** (`Json*.dfy`, `Dsml*.dfy`): reading, minifying, rendering and parsing of tool calls.
- **Prompt** (`Prompt.dfy`, `PromptBack.dfy`): the conversation as the model sees it, and reading it back.
- **Decode state** (`Compressor.dfy`, `KvCache.dfy`, `LayerCache.dfy`): the overlapping compressor windows and ring
  caches, proved against the plain token history.
- **Smaller cores**: incremental SHA-1 (`Sha1.dfy`), disk-cache eviction (`DiskCache.dfy`), hot-range
  planning (`HotPlan.dfy`), the packed Q2_K dot product (`Quant.dfy`) and the folds of the line editor
  (`Folds.dfy`, `FoldEdit.dfy`).

What the source updates in place is a class or an array here, and each of its methods is proved
against a specification function or relation; the lemmas are about those. `Common.dfy` holds what
several models share.

## Findings

Where a property that one would expect of the code does not hold, the model keeps the code as it is,
names an input, and proves exactly when it holds.

| property | holds exactly when | input that fails | source |
|---|---|---|---|
| removing a key loses no other key | the removal does not stop at a keyless node of one edge whose chain is overlong: its first two nodes fit into one, and all of it does not (`RaxTree.Rax.Remove`, `RaxFate.LosesExactly`) | a key of 65536 bytes and its prefix of 65534, the prefix removed: the key left is 65535 bytes long (`RaxLimit.LongFate`) | `rax.c:1388-1443` |
| recompression writes only into the node it allotted | that chain is not overlong, or what is too much fits into the padding and the place of the child pointer (`RaxFate.MergeOf`, `RaxTree.Rax.Remove`) | a key of 65549 bytes and its prefix of 65534, the prefix removed (`RaxLimit.LongFate`) | `rax.c:1403-1443` |
| rendered calls are parsed back | every parameter survives: a string holds none of the five entities and its key does not end in `string=`, a JSON value holds no closing tag (`DsmlExact.RoundTripExactly`) | a string with the key `string=` (`DsmlExact.KeyConfuses`) | `ds4_server.c:2676-2688` |
| the cut at a stop does not depend on how the text comes | no stop has a proper prefix in which another stop comes first, behind its start (`StopStream.CutIsFree`) | `abc` beside `b` (`StopStream.SplitMatters`) | `ds4_server.c:852-881` |
| a prompt begins every later prompt | no thinking, or tools in the context, or nothing answered yet (`Prompt.PromptExactly`) | question and answer without tools, and the user goes on (`Prompt.ReasoningHidden`) | `ds4_server.c:1925-1945` |
| prompt and generated suffix are the next prompt | no thinking, or the answer's calls are not the first use of tools, or nothing answered before (`Prompt.AppendStable`) | an answered question, then an answer with the first call (`Prompt.ReasoningBack`) | `ds4_server.c:5975-5986` |
| without calls, a stream and the final parse tell the same reasoning and content | the text is empty, or holds `</think>` just when the model thinks (`StreamAgrees.PlainExactly`) | a thinking reply cut off before `</think>` (`StreamAgrees.CutThoughtDiffers`) | `ds4_server.c:2703-2718` |
| a prompt of texts without markers gives its conversation back | the conversation does not begin with an answer (`PromptBack.ConversationExactly`) | a system text and an empty answer, against an answer that is that text (`PromptBack.FirstAnswerLost`) | `ds4_server.c:1874-1956` |

Keys of at most 65535 bytes rule the first two out. The tool memory keys one of its two trees with
the text of whole tool calls, of any length (`ds4_server.c:4251-4277`), so that caller gives no such
promise.

Two more results are about flags that are never raised: the insertions into the tool memory's indexes
never meet an entry already there (`ToolMemory.Memory.Put`), and its saturating subtractions never
saturate (`ToolMemory.Memory.RemoveEntry`).

## Model

| member | source | states |
|---|---|---|
| RaxGraph.Node.SetData | rax.c:271-281 | a node becomes a key whose value reads back, a stored NULL kept apart from no key |
| RaxGraph.Node.MatchEdge | rax.c:566-597 | one step of the walk: the matched edge, or how far into the run the string agrees and where it stops agreeing |
| RaxGraph.Node.FindChildPos | rax.c:294-302 | the position where an edge character keeps the edges strictly sorted |
| RaxGraph.Descend | rax.c:559-620 | in any linked tree, a node whose prefix begins another node's prefix is its ancestor: the other hangs below one of its slots |
| RaxGraph.KeyBelow | rax.c:559-620 | every stored key that begins with a node's prefix is that node's own, or lies in or below exactly one of its slots |
| RaxGraph.StoppedDecides | rax.c:1101-1117 | where a walk stops decides membership: the string is a key if and only if the walk used it up at the start of a key node, and then with that node's value |
| RaxGraph.StoppedInlineDecides | rax.c:1101-1117 | a walk that meets an inline leaf: the string is a key if and only if it is used up there, with the slot's value |
| RaxEdits.SetKey | rax.c:271-281 | giving a node a key changes the map at exactly that node's prefix and keeps the tree well formed |
| RaxEdits.ClearKey | rax.c:1299-1305 | taking a node's key away removes exactly that key from the map |
| RaxEdits.RewireKeeps | rax.c:307-454 | any change of one slot of one node (added, replaced, dropped) keeps the tree well formed and changes the map at that one key at most |
| RaxRuns.SplitKeeps | rax.c:826-936 | cutting a compressed run in two keeps the tree and leaves the map as it is |
| RaxRuns.JoinKeeps | rax.c:1422-1443 | joining a run with the run of its only child keeps the tree and leaves the map as it is |
| RaxRuns.MoveKeeps | rax.c:1446-1458 | a new node in the place of an old one, also at the head, keeps the tree and the map |
| RaxSlots.RemoveSlotOk | rax.c:1141-1205 | a node without one of its slots is still sorted, and its bitmap still marks exactly its inline slots |
| RaxChanges.NoKeyHere | rax.c:674-700 | a node that is no key says that its prefix is not in the map: no other node or slot can hold it |
| RaxChanges.NoKeyBeyond | rax.c:566-597 | no key goes on from an ordinary node with a character that is none of its edges |
| RaxChanges.SetInlineKeeps | rax.c:644-651 | overwriting an inline value updates the map at that leaf's key only |
| RaxChanges.MaterializeKeeps | rax.c:212-226 | turning an inline leaf into a node keeps the tree well formed and the map as it is |
| RaxChanges.RemoveInlineKeeps | rax.c:1284-1298 | dropping an inline leaf removes exactly its key, whose value the slot held |
| RaxChanges.RemoveBareKeeps | rax.c:1226-1265 | dropping a node with neither child nor key leaves the map as it is and takes one node away |
| RaxChanges.AddChildKeeps | rax.c:307-454 | adding an edge, with child 12 spilled into a node when it would move to slot 13, keeps the tree well formed and adds at most the new key |
| RaxChanges.MakeRunKeeps | rax.c:514-528 | hanging a compressed run below a childless node keeps the tree well formed; the new key was not there before |
| RaxSplits.SplitAtKeeps | rax.c:826-936 | ALGO 1: splitting a run at a mismatch, at its start, inside or at its last character, changes no key |
| RaxSplits.SplitForKeyKeeps | rax.c:939-1003 | ALGO 2: splitting a run where the new key ends adds exactly that key |
| RaxTree.Rax.constructor | rax.c:248-260 | an empty tree: one bare head, no keys |
| RaxTree.Rax.LowWalk | rax.c:559-620 | the walk stops where no edge goes on, or at an inline leaf; the link and the stack of ancestors belong to that place |
| RaxTree.Rax.Find | rax.c:1101-1117 | the value of the key in the map, NULL included, or not found |
| RaxTree.Rax.MaterializeInlineLeaf | rax.c:212-226 | the slot's value moves to a new node; count and graph follow |
| RaxTree.Rax.SpillSlot12 | rax.c:354-363 | child 12 becomes a node exactly when it is inline and would move to slot 13 |
| RaxTree.Rax.AddChildNoAlloc | rax.c:307-454 | the new edge goes to its sorted place; slots and bitmap shift together, and the graph follows |
| RaxTree.Rax.SplitMismatch | rax.c:826-936 | the up to three nodes of ALGO 1 stand where the compressed node stood, and the count follows |
| RaxTree.Rax.SplitMatch | rax.c:939-1003 | the two nodes of ALGO 2 stand where the compressed node stood, the second holding the new key |
| RaxTree.Rax.InsertRest | rax.c:1005-1083 | the rest of the key is hung below the stop node, in runs of at most the node limit and an inline leaf at the end where its slot allows one |
| RaxTree.Rax.GenericInsert | rax.c:629-1083 | the map is updated at the key, unless it is there and may not be overwritten; the return value and the old value say what was there; shape and counts are kept |
| RaxTree.Rax.Insert | rax.c:1087-1089 | map update, with 1 returned exactly for a new key |
| RaxTree.Rax.TryInsert | rax.c:1094-1096 | insert if absent |
| RaxTree.Rax.RemoveChild | rax.c:1141-1220 | the slot that led to the freed child is taken out, found among the others |
| RaxTree.Rax.RemoveCleanup | rax.c:1226-1265 | bare nodes are freed towards the head, as `Prune` says of the tree before: until one has a key, another child, or is the head |
| RaxTree.Rax.ClimbChain | rax.c:1376-1387 | the topmost node that can be merged, with its parent |
| RaxTree.Rax.SizeChain | rax.c:1388-1402 | the first scan: as many nodes of the chain as fit into one, and their length |
| RaxTree.Rax.CollectChain | rax.c:1422-1443 | the second scan writes all characters of the chain, and outside of the room behind the header exactly when they are more than it |
| RaxTree.Rax.ReplaceChain | rax.c:1403-1460 | one node takes the place of the chain and holds the characters of the nodes the first scan counted; every key below loses the rest |
| RaxTree.Rax.Recompress | rax.c:1370-1460 | the whole chain around the node, and what becomes of it: nothing, one run with the same map, one run with shortened keys, or a write outside |
| RaxTree.Rax.Remove | rax.c:1269-1465 | for every tree and key: the old value and the map after it, told from the tree before the call; all other keys are kept if and only if `Fate` is no shortening, and otherwise the map is exactly the one with the shortened keys; a write outside happens if and only if `Fate` says so |
| RaxTree.Rax.EmptyTree | rax.c:1226-1265 | a tree without keys is one bare head |
| RaxRemoval.PathFits | rax.c:1388-1402 | where all keys fit into one node, so does every mergeable chain |
| RaxRemoval.Lengthen | rax.c:1388-1402 | every mergeable chain goes on to one that ends at a key, a branch or an inline leaf |
| RaxFate.WithoutKeeps | rax.c:1284-1305 | taking a key out of its one place leaves a tree of the others, in which only that node may be bare |
| RaxFate.PruneKeeps | rax.c:1226-1265 | pruning keeps the tree and its keys, stops at the head or at the first node with a key or a child left, and changes nothing but the slot it ends at |
| RaxFate.RemainsKeeps | rax.c:1226-1305 | so what is left before the merge is a tree of the other keys; there is none for what is no key |
| RaxFate.FateOfKey | rax.c:1300-1322 | a key in a node with children: nothing is freed, and a merge is tried only with one edge |
| RaxFate.FateOfInline | rax.c:1284-1298 | an inline key beside another edge or in a key node: nothing is freed, and a merge is tried only with two edges and no key |
| RaxFate.ChainAround | rax.c:1370-1402 | every keyless node with one edge lies in a whole chain |
| RaxFate.OneChain | rax.c:1370-1402 | and in only one |
| RaxFate.WhenOverlong | rax.c:1388-1443 | characters find no room exactly where the first two nodes of the chain fit into one and the whole does not |
| RaxFate.LosesExactly | rax.c:1370-1443 | a removal shortens other keys or writes outside if and only if it stops at a keyless node of one edge whose chain is overlong |
| RaxFate.FitsAll | rax.c:1388-1402 | never where the other keys fit into one node each |
| RaxFate.ShortDiffers | rax.c:1422-1443 | a shortening always shows in the map |
| RaxShorten.SkipKeeps | rax.c:1422-1443 | a link left out of a chain takes its characters away from every key below and changes nothing else |
| RaxShorten.CutChain | rax.c:1422-1443 | likewise the whole end of a chain |
| RaxShorten.Squeeze | rax.c:1403-1443 | a merge that keeps the first nodes of a chain: well formed, with exactly those characters, and a map whose keys lack the others |
| RaxShorten.PulledTwice | rax.c:1422-1443 | two cuts at one place are one |
| RaxShorten.PulledSize | rax.c:1422-1443 | shortened keys never meet, so none is lost |
| RaxLimit.LongWellFormed | rax.c:1422-1443 | a key longer than a node can hold, by up to a second node, and its prefix of 65534 bytes: their tree is well formed |
| RaxLimit.LongFate | rax.c:1388-1443 | removing the prefix cuts the longer key to 65535 bytes if it is at most 13 bytes longer, and writes outside if it is more |
| RaxLimit.RemoveShortens | rax.c:1403-1443 | the same through the tree: the map left is that of the cut key |
| RaxTree.Rax.RecursiveFree | rax.c:1469-1494 | freeing a subtree takes away as many nodes as it has |
| RaxTree.Rax.Free | rax.c:1498-1507 | the node count ends at zero, so the assertion holds |
| RaxOrder.TotalOrder | rax.c:1680-1785 | the key order (bytes, a prefix first) is total |
| RaxOrder.NextChild | rax.c:1738-1775 | the next edge of a node leads to the first of the keys behind an edge character |
| RaxOrder.NoPrevChild | rax.c:1820-1893 | below the first edge of a node, only the node's own key and what is before it are smaller |
| RaxSeek.AtLeaf | rax.c:1962-1983 | an inline leaf where a seek ends, against the sought string: what is greater and what is smaller |
| RaxSeek.BeforeRun | rax.c:2038-2072 | a mismatch in a run that goes on with a greater character: the whole subtree is greater |
| RaxSeek.AfterRun | rax.c:2038-2072 | a mismatch in a run that goes on with a smaller character: the whole subtree is smaller |
| RaxIterator.Iterator.NextStep | rax.c:1680-1785 | the least key behind the current one, inline leaves included, or end of iteration if there is none |
| RaxIterator.Iterator.PrevStep | rax.c:1803-1893 | the greatest key before the current one, or end of iteration |
| RaxIterator.Iterator.SeekGreatest | rax.c:1790-1798 | the greatest key below the current node |
| RaxIterator.Iterator.SeekLast | rax.c:1940-1949 | the greatest key of the tree |
| RaxIterator.Iterator.SeekAtLeaf | rax.c:1962-1983 | every operator, when the lookup met an inline leaf |
| RaxIterator.Iterator.SeekAtNode | rax.c:1985-2108 | every operator, when the lookup stopped at a node |
| RaxIterator.Iterator.Seek | rax.c:1899-2108 | for each of the operators the iterator sits on the least or greatest key that satisfies it, or on the end if none does; an unknown operator is refused |
| RaxIterator.Iterator.Next | rax.c:2113-2123 | after a seek the key sought, and then each time the strict successor with its value |
| RaxIterator.Iterator.Prev | rax.c:2128-2138 | likewise the strict predecessor |
| RaxIterator.Walk | rax.c:2113-2123 | a full walk lists every key once, in strictly increasing order |
| ToolMemoryList.BytesRemoved | ds4_server.c:4292-4306 | taking an entry away takes its own bytes away, and its block's exactly if no other entry shares it |
| ToolMemoryList.PrunedIsLongest | ds4_server.c:4308-4314 | a beginning of the LRU list fits both limits if and only if it is no longer than what pruning keeps, for any sharing of blocks |
| ToolMemoryList.RunWithinLimits | ds4_server.c:4323-4363 | after any run of put, look-up and removal the list is within both limits and no id is listed twice |
| ToolMemoryList.AnswersLastPut | ds4_server.c:4323-4363 | whatever is still remembered for an id is the text it was last given |
| ToolMemoryList.PutThenFound | ds4_server.c:4323-4363 | an id just put is found if and only if it alone fits both limits |
| ToolMemoryList.RunByUse | ds4_server.c:4232-4237 | after any run, an entry nearer the front was put or looked up later than any entry behind it |
| ToolMemoryList.EvictsLeastRecent | ds4_server.c:4308-4363 | so whatever a put evicts was last used before everything that stays |
| ToolMemoryLinks.UnlinkedLinks | ds4_server.c:4224-4230 | bypassing an entry leaves a correct doubly linked list of the others |
| ToolMemoryLinks.FrontedLinks | ds4_server.c:4216-4222 | linking at the head puts the entry in front of all others |
| ToolMemoryLinks.BlocksUnchained | ds4_server.c:4239-4249 | unchaining an entry from its block keeps every block's chain the exact list of its entries |
| ToolMemoryLinks.TouchKeeps | ds4_server.c:4232-4237 | moving an entry to the front with a new stamp keeps stamps strictly falling from head to tail |
| ToolMemoryLinks.RemoveKeeps | ds4_server.c:4292-4306 | removing an entry keeps both indexes, all chains, the order of stamps and the byte total |
| ToolMemoryLinks.AddKeeps | ds4_server.c:4340-4361 | adding an entry keeps the same |
| ToolMemory.Memory.constructor | ds4_server.c:4209-4214 | an empty memory that meets the invariant |
| ToolMemory.Memory.LinkHead | ds4_server.c:4216-4222 | the entry becomes the head of the list |
| ToolMemory.Memory.Unlink | ds4_server.c:4224-4230 | the entry leaves the list, wherever it stood |
| ToolMemory.Memory.Touch | ds4_server.c:4232-4237 | the entry moves to the front with the newest stamp; the whole invariant is kept |
| ToolMemory.Memory.BlockUnlinkEntry | ds4_server.c:4239-4249 | the entry leaves its block's singly linked chain |
| ToolMemory.Memory.GetBlock | ds4_server.c:4251-4277 | the one block of a text, made and counted if there is none |
| ToolMemory.Memory.ReleaseBlock | ds4_server.c:4279-4290 | one reference less; the last one frees the block, its index entry and its bytes |
| ToolMemory.Memory.RemoveEntry | ds4_server.c:4292-4306 | the list without that entry; every total stays exact, so no subtraction saturates |
| ToolMemory.Memory.Prune | ds4_server.c:4308-4314 | the list cut to the longest beginning within both limits |
| ToolMemory.Memory.FindEntry | ds4_server.c:4316-4321 | the entry of an id, through the index, if and only if the list has it |
| ToolMemory.Memory.HasEntry | ds4_server.c:4372-4378 | whether an id is remembered |
| ToolMemory.Memory.Lookup | ds4_server.c:4380-4389 | the text and source of an id, moved to the front |
| ToolMemory.Memory.Put | ds4_server.c:4323-4363 | the list with the entry put, reused or replaced, then pruned; neither index insertion ever meets an entry already there |
| JobServer.InvStep | ds4_server.c:6595-6635 | every step of any thread keeps the invariant over queue, waiting, counting and stopping |
| JobServer.PathInv | ds4_server.c:6595-6635 | so it holds in every state of every run |
| JobServer.FifoOnce | ds4_server.c:6595-6635 | in every run the worker runs the accepted jobs in the order accepted, each once, and all of them once it has exited |
| JobServer.ClientsServed | ds4_server.c:6839-6866 | a client whose job was accepted waits until it is done and is released then; when the server has closed no client is left |
| JobServer.NoneAfterStop | ds4_server.c:6595-6606 | once stopping is set no job is accepted any more |
| JobServer.NotStuck | ds4_server.c:7267-7275 | while the server is stopping some thread can always take a step that is no spurious wake-up |
| JobServer.JobMoves | ds4_server.c:6608-6635 | an accepted job that is not done can always be moved on by the worker or by its own client |
| JobServer.WorkFalls | ds4_server.c:7267-7275 | while stopping, every step but a spurious wake-up lowers a measure of the work left |
| JobServer.DrainEnds | ds4_server.c:7267-7275 | so every run while stopping is bounded by the work left and three steps for each spurious wake-up |
| JobServer.Closes | ds4_server.c:7267-7275 | and from any such state a run without spurious wake-ups reaches the closed server |
| JobQueue.Queue.Enqueue | ds4_server.c:6595-6606 | the linked queue grows at its tail unless stopping; it is the client's step of the state machine |
| JobQueue.Queue.Dequeue | ds4_server.c:6608-6621 | the oldest job leaves; an empty queue waits, or ends the worker when stopping; it is the worker's step |
| JobQueue.Queue.Stop | ds4_server.c:7267-7270 | the stop flag, the main thread's step |
| JobQueue.OthersKeep | ds4_server.c:6595-6635 | no other step touches queue or flag |
| StreamText.Utf8SafeBoundary | ds4_server.c:896-918 | for valid UTF-8 the safe length is a character boundary, and holds nothing back at one |
| StreamText.HoldFinds | ds4_server.c:3225-3240 | looking only at the last mark in a bounded window finds every literal that may be cut off at the end |
| StreamText.UnescapeSplit | ds4_server.c:2649-2674 | decoding entities piece by piece gives the same when no entity is cut |
| StreamText.EntityMeans | ds4_server.c:2649-2674 | each of the five entities is the character it names, whatever follows |
| StreamText.PlainMeans | ds4_server.c:2649-2674 | a text that begins with none of them keeps its first character |
| StreamTool.ValueSafeStays | ds4_server.c:3242-3257 | a safe length on a prefix is no longer than on any continuation, and what is safe from there is the same |
| StreamTool.ValueSplit | ds4_server.c:3404-3478 | a parameter value sent in two pieces is the value sent in one |
| StreamTool.EndNotSent | ds4_server.c:3242-3257 | no byte of a closing tag that completes later is ever sent as part of a value |
| StreamTool.RoundSplits | ds4_server.c:3404-3478 | one round of the tool parser on a prefix and then on the whole equals one round on the whole |
| StreamTool.UpdateSplits | ds4_server.c:3404-3478 | an update of the hidden tool mode on a prefix and then on the whole sends what one update on the whole sends |
| StreamOpenAi.HeldBefore | ds4_server.c:3849-3888 | text held back covers every tool call that starts in it unseen, and the white space before any that comes next |
| StreamOpenAi.TextWaits | ds4_server.c:3528-3553 | a text update that finds no tool call, then the final one: the same as the final one alone |
| StreamOpenAi.ThinkWaits | ds4_server.c:3486-3526 | likewise for reasoning without its closing tag |
| StreamOpenAi.StreamSplits | ds4_server.c:3480-3560 | an update on any prefix and the final one on the whole send what the final one alone sends, in every mode |
| StreamOpenAi.DeliveredIsSent | ds4_server.c:3480-3560 | so do any number of growing prefixes, from any reachable state |
| StreamOpenAi.CuttingIsFree | ds4_server.c:3480-3560 | for every valid UTF-8 text, with or without tools or thinking, and every cutting into growing prefixes with a final last call: the deltas are those of one final call |
| StreamWhole.RoundWhole | ds4_server.c:3404-3478 | what one round of the tool parser sends, names and escaped argument pieces, is of whole characters |
| StreamWhole.NeverSplitsCharacters | ds4_server.c:3480-3560 | no update, the final one included, splits a character of reasoning, content, a tool name or arguments |
| StreamSent.SpelledReceived | ds4_server.c:3404-3560 | of a reply whose calls are written in any of the three spellings, a client receives the content in front of them without the white space at its end, each name under its index and before its arguments, and arguments that are one JSON object with the members that were written |
| StreamSent.ReplyReceived | ds4_server.c:3404-3560 | the same for rendered calls: the calls received are the calls rendered |
| StreamSent.ThoughtfulSpelledReceived | ds4_server.c:3480-3560 | the same with reasoning in front, which is sent as reasoning |
| StreamSent.ThoughtfulReplyReceived | ds4_server.c:3480-3560 | the same with reasoning and rendered calls |
| StreamSent.ThoughtReceived | ds4_server.c:3480-3560 | reasoning and content without calls: each is sent whole as what it is |
| StreamSent.ContentReceived | ds4_server.c:3480-3560 | content alone is sent whole |
| StreamSent.EndlessThoughtReceived | ds4_server.c:3480-3560 | without a closing tag all is reasoning |
| StreamAgrees.ThoughtfulAgrees | ds4_server.c:6456-6540 | of a reply with reasoning and calls in any spelling, the client of a stream has the reasoning, content, names and arguments that the parser makes of the whole text |
| StreamAgrees.ContentAgrees | ds4_server.c:6456-6540 | the same without reasoning |
| StreamAgrees.PlainExactly | ds4_server.c:2703-2718 | without calls the two tell the same if and only if the text is empty, or holds the closing tag of reasoning just when the model thinks |
| StreamAgrees.CutThoughtDiffers | ds4_server.c:2703-2718 | a thinking reply that is cut off: reasoning for the stream, content for the parser |
| StreamLive.Utf8SafeLen | ds4_server.c:896-918 | the loop finds the specified safe length |
| StreamLive.HoldBack | ds4_server.c:3225-3240 | the backward scan finds the specified hold |
| StreamLive.ParamSafeLen | ds4_server.c:3242-3257 | the safe length of a parameter value |
| StreamLive.TextSafeLimit | ds4_server.c:3849-3888 | the safe limit of visible text |
| StreamLive.FindToolStart | ds4_server.c:2593-2604 | the earliest start of a tool call in any spelling |
| StreamLive.UnescapeText | ds4_server.c:2649-2674 | the decoding loop |
| StreamLive.EscapeFragment | ds4_server.c:2558-2576 | the escaping loop |
| StreamLive.Live.UpdateCalls | ds4_server.c:3404-3478 | the imperative tool parser changes its state and sends as the specification says |
| StreamLive.Live.UpdateThinking | ds4_server.c:3486-3526 | the same for reasoning |
| StreamLive.Live.UpdateText | ds4_server.c:3528-3553 | the same for visible text |
| StreamLive.Live.UpdateStream | ds4_server.c:3480-3560 | the same for one whole update |
| StreamLive.Deliver | ds4_server.c:3480-3560 | a whole reply through the imperative stream, in any cutting, sends exactly what one final call would |
| StopStream.StopList.Push | ds4_server.c:809-821 | the list holds no empty sequence and knows its longest |
| StopStream.FindFrom | ds4_server.c:852-872 | the first stop at or after a place, with its length, or none |
| StopStream.Rescan | ds4_server.c:6300-6312 | scanning again from the bounded place misses no stop |
| StopStream.Plain.Feed | ds4_server.c:6300-6325 | a stop shows as soon as it is complete; nothing of it was sent, and the text is cut before it |
| StopStream.Generate | ds4_server.c:6300-6404 | the deltas and the flush are all of the text, or all before its first stop; what is sent holds no stop |
| StopStream.CutIsFree | ds4_server.c:852-881 | the cut is the same for every text however it comes if and only if no stop has a proper prefix in which another stop comes first |
| StopStream.NestedDiffers | ds4_server.c:852-881 | where one has, its own text is cut in two ways, whole and in two pieces |
| StopStream.OneStop | ds4_server.c:852-881 | a single stop never has |
| StopStream.SplitMatters | ds4_server.c:852-881 | `abc` beside `b` has |
| Json.EscapedBack | ds4_server.c:209-251 | reading an escaped string gives the string, for every string and any text behind it |
| Json.QuotedBack | ds4_server.c:2530-2550 | a quoted string is read back, and the rest is what follows |
| JsonEscapes.LetterMeans | ds4_server.c:209-251 | each letter escape is the character of section 7 of RFC 8259, and any other letter but `u` is refused |
| JsonEscapes.PutMeans | ds4_server.c:178-194 | what is written for a code point is its character by the table in section 3 of RFC 3629; a surrogate has none |
| JsonEscapes.OnlyBytes | ds4_server.c:178-194 | and no other bytes are that character |
| JsonEscapes.PutIsWhole | ds4_server.c:178-194 | what is written is one whole character for the streams, a surrogate too |
| JsonEscapes.EscapeMeans | ds4_server.c:196-235 | a code point escape, with digits of either case, is that code point |
| JsonEscapes.PairMeans | ds4_server.c:228-235 | a high and a low surrogate are the code point they make |
| JsonEscapes.EscapesReach | ds4_server.c:228-235 | every code point can be written by one escape or by two |
| JsonEscapes.LoneHigh | ds4_server.c:228-235 | a high surrogate in front of an escape that is no low one: that escape is lost, and what is written is no character |
| JsonLiteral.LiteralRead | ds4_server.c:209-251 | every string literal is read as what its characters and escapes mean, whatever follows it |
| JsonLiteral.LiteralExactly | ds4_server.c:209-251 | a text is read as a string literal if and only if it is one, and then as what it means |
| JsonTree.TreeSkipped | ds4_server.c:287-348 | every JSON value with white space where it may stand is skipped to its end, and kept without that white space |
| JsonTree.TreeIs | ds4_server.c:287-348 | whatever is skipped is such a value |
| JsonTree.SkippedExactly | ds4_server.c:335-348 | a text is skipped as one value, white space around it aside, if and only if it is one |
| JsonTree.WordsAreWords | ds4_server.c:335-348 | true, false and null are read whole |
| JsonTree.NumberIsWord | ds4_server.c:253-260 | every number of section 6 of RFC 8259 is read whole |
| JsonFacts.BodyAppend | ds4_server.c:209-251 | what a string literal decodes to does not depend on the text behind it |
| JsonNumber.NumberAppend | ds4_server.c:253-260 | what `strtod` reads (decimal, hexadecimal, infinite or not a number) ends at the same place whatever follows that is no part of a number |
| JsonNumber.NumberStart | ds4_server.c:253-260 | no such number starts like true, false or null |
| JsonStable.ValueAppend | ds4_server.c:335-348 | a value is skipped up to the same place whatever follows that cannot go on with it |
| JsonMinify.ValueMin | ds4_server.c:362-387 | a minified value is a value, and minified it stays as it is |
| JsonMinify.ValueSqueezed | ds4_server.c:362-387 | dropping white space outside strings gives the minified value |
| JsonMinify.CompactBack | ds4_server.c:362-387 | a compact value is read back whole before any separator |
| JsonMinify.StoredIsCompact | ds4_server.c:350-387 | what the reader stores for a value is compact |
| JsonArgs.ParsedIsStored | ds4_server.c:1700-1743 | every argument list read from JSON holds compact values |
| JsonMembers.ObjectMeans | ds4_server.c:1700-1743 | every JSON object is read as its members in order, strings decoded and other values without white space, and no other value is read as arguments |
| JsonArgs.ObjectBack | ds4_server.c:2690-2701 | the arguments a parsed call is given are read back as the same ordered list |
| JsonObject.ObjectsAreJson | ds4_server.c:2690-2701 | the arguments as one text and as sent in pieces are each one JSON value, the one the other without white space |
| JsonTight.ObjectTextRead | ds4_server.c:2690-2701 | the arguments as one text are one JSON value and are read as the members they were made of, whatever JSON their values are |
| JsonTight.TightRead | ds4_server.c:3255-3330 | the arguments as sent in pieces are one JSON value and are read back as the same ordered list, each value as the reader keeps it |
| DsmlText.AttrBack | ds4_server.c:1745-1753 | an attribute escaped and decoded is the attribute, for every string |
| DsmlText.FirstEnd | ds4_server.c:1764-1788 | the first closing tag found behind a written value is the real one |
| DsmlText.ParamTextBack | ds4_server.c:1764-1775 | a string value written and decoded comes back if and only if it holds none of the five entities |
| DsmlText.JsonTextBack | ds4_server.c:1777-1788 | a JSON value is written as it is if and only if it holds no closing tag |
| DsmlBack.ParamStep | ds4_server.c:2792-2837 | one parameter written in any of the three spellings, parsed: its key, its decoded or plain text, and whether it is a string |
| DsmlBack.RereadExactly | ds4_server.c:1790-1799 | a parameter is reread as it was if and only if it survives: a string with no entity whose key does not end in `string=`, or JSON without a closing tag |
| DsmlRound.CallsBack | ds4_server.c:2770-2851 | a block of calls written in any spelling, parsed: every call with its name and the arguments its parameters say, and the text behind |
| DsmlRound.BlockParsed | ds4_server.c:2720-2851 | a text, a block of calls in any spelling right behind it or after two line feeds, and more text: the calls, and the exact raw block |
| DsmlRound.RenderedParsed | ds4_server.c:2720-2851 | a text with rendered calls, parsed: the text without trailing white space, its reasoning, the calls, and the exact raw block |
| DsmlReason.ThoughtBack | ds4_server.c:2703-2765 | reasoning and content without calls, parsed: each comes back |
| DsmlReason.ContentBack | ds4_server.c:2703-2765 | a text without a closing tag is all content and has no reasoning |
| DsmlReason.WholeBack | ds4_server.c:2703-2851 | reasoning, content and rendered calls, parsed: each comes back, the content without the white space before the calls |
| DsmlReason.ContentAndCalls | ds4_server.c:2703-2851 | content and rendered calls, parsed: no reasoning |
| DsmlReason.SpelledBack | ds4_server.c:2703-2851 | reasoning, content and calls in any spelling with text behind: each comes back |
| DsmlReason.SpelledContent | ds4_server.c:2703-2851 | the same without reasoning |
| DsmlExact.Descent | ds4_server.c:209-251 | a literal cannot decode to a text that has its plain characters further on than itself |
| DsmlExact.NotAString | ds4_server.c:2690-2701 | a string written without quotes is never read back as that string |
| DsmlExact.NotThatJson | ds4_server.c:2690-2701 | JSON text whose closing tag was taken apart is never read back as it was |
| DsmlExact.ArgsExactly | ds4_server.c:1700-1743 | the arguments of a call come back if and only if every parameter survives |
| DsmlExact.RoundTripExactly | ds4_server.c:1844-1864 | a whole message rendered and parsed has the same calls, names and ordered arguments if and only if every parameter of every call survives |
| DsmlExact.ParsedExactly | ds4_server.c:1844-1864 | the same for a call whose arguments were read from JSON text |
| DsmlExact.KeyConfuses | ds4_server.c:2676-2688 | the key `string=` is an input that is lost: the attribute search finds `string="` inside the name |
| DsmlLoops.WriteAttribute | ds4_server.c:1745-1753 | the escaping loop |
| DsmlLoops.WriteValue | ds4_server.c:1764-1788 | the loop that takes closing tags apart |
| DsmlLoops.ReadParams | ds4_server.c:2792-2837 | the loop over the parameters of a call |
| DsmlLoops.ReadCalls | ds4_server.c:2770-2851 | the loop over the calls of a block |
| Prompt.Write | ds4_server.c:1874-1956 | the three loops write the specified prompt |
| Prompt.AppendStable | ds4_server.c:5975-5986 | the prompt and the generated suffix are the next prompt if and only if there is no thinking, or the answer's calls are not the first use of tools, or nothing was answered before |
| Prompt.Parts | ds4_server.c:1925-1945 | two prompts of which only one shows an answer's reasoning part at that answer's opening |
| Prompt.PrefixExactly | ds4_server.c:1874-1956 | what is shown of a conversation begins every continuation without system messages if and only if there is no thinking, or tools are in the context, or nothing was answered yet |
| Prompt.PromptExactly | ds4_server.c:1874-1956 | the same for the whole prompt up to the end of the messages |
| Prompt.ReasoningHidden | ds4_server.c:1925-1945 | an answer, and the user goes on: the longer prompt does not begin with the shorter |
| Prompt.ReasoningBack | ds4_server.c:5975-5986 | an answered question, then an answer with the first call: the prompt and what was generated are not the next prompt |
| PromptBack.ResultBack | ds4_server.c:1874-1956 | a tool result, escaped for the prompt and decoded, is the result, for every string |
| PromptBack.ConversationBack | ds4_server.c:1874-1956 | a reader that cuts a prompt at its markers finds every turn again, in order: user texts, tool results, and answers with the reasoning shown and the calls |
| PromptBack.ConversationExactly | ds4_server.c:1874-1956 | a prompt of texts without markers gives its whole conversation back if and only if the conversation does not begin with an answer |
| PromptBack.FirstAnswerLost | ds4_server.c:1874-1956 | a system text and an empty answer make the same prompt as an answer that is that text |
| PromptBack.SystemBack | ds4_server.c:1874-1956 | the system texts in front come back, one by one |
| PromptBack.HeadBack | ds4_server.c:1874-1956 | what stands first gives back the begin token, the thinking prefix, the system texts in order and the description of the tools |
| Compressor.EmptyIgnored | pkg/ds4/compressor.go:90-148 | slots with the empty score change no pooled value |
| Compressor.FirstRow | pkg/ds4/compressor.go:90-148 | the first row of a two-lane layer pools the second lane of its own four tokens alone |
| Compressor.PoolBetween | pkg/ds4/compressor.go:90-148 | a pooled value lies between any bounds of the scored values, so equal values pool to that value |
| Compressor.PoolOfTwo | pkg/ds4/compressor.go:90-148 | of two scored values the weights are in the ratio of the exponentials of their scores |
| Compressor.PoolIsSoftmax | pkg/ds4/compressor.go:90-148 | of any number of values the pool times the sum of the exponentials is the values so weighted |
| Compressor.RowEntriesAt | pkg/ds4/compressor.go:90-148 | which tokens and lanes a row pools: for two lanes the block before and this one, else this one |
| Compressor.RowBetween | pkg/ds4/compressor.go:90-148 | so a stored element lies between any bounds of the values it pools |
| Compressor.Window.constructor | pkg/ds4/kvcache.go:49-77 | all slots empty |
| Compressor.Window.Put | pkg/ds4/compressor.go:25-51 | the token at its place in the window: the window is what the token history says |
| Compressor.Window.PoolOne | pkg/ds4/compressor.go:90-148 | one pooled element is the softmax-weighted sum over the slots, or zero where all are empty |
| Compressor.Window.PoolState | pkg/ds4/compressor.go:90-148 | the pooled row, element by element |
| Compressor.Window.NextBlock | pkg/ds4/compressor.go:74-84 | the second half becomes the first; copying back changes nothing that is still used |
| Compressor.Window.Decode | pkg/ds4/compressor.go:12-86 | on every run of positions 0, 1, 2, …: a row is emitted exactly after every full block, and pools exactly the tokens of the history that belong to it, lane A of the block before and lane B of its own for ratio 4 |
| KvCache.Ring.Push | pkg/ds4/kvcache.go:100-187 | the row history grows by the row in half precision; a full ring loses its oldest |
| KvCache.Ring.Row | pkg/ds4/kvcache.go:117-205 | row i in order of time is that row of the history |
| KvCache.CapSuffices | pkg/ds4/kvcache.go:49-70 | a context never makes more compressed rows than the capacity |
| LayerCache.RowStays | pkg/ds4/compressor.go:90-148 | a compressed row does not change any more once its block is complete |
| LayerCache.Layer.Decode | pkg/ds4/attention.go:264-285 | over all positions 0, 1, 2, …: the rows stored are one for each complete block, row i the pooled row i of the token history, finished and halved |
| LayerCache.Layer.Row | pkg/ds4/kvcache.go:49-205 | within the context the ring still has every row, and gives row i as row i |
| KvCache.Allow | pkg/ds4/compressor.go:152-228 | exactly the top-K scored rows are allowed, earlier ones among equals; all when there are no more than K |
| Sha1.Context.Transform | ds4_server.c:4625-4664 | one block through the compression function of FIPS 180-4, section 6.1.2 |
| Sha1.Context.Update | ds4_server.c:4676-4691 | the context absorbs any piece as one whole message would; fewer than 64 bytes wait |
| Sha1.Context.PadZeros | ds4_server.c:4693-4701 | the padding loop ends, with 56 bytes in the block |
| Sha1.Context.Final | ds4_server.c:4693-4708 | the digest of the padded message |
| Sha1.PaddingFills | ds4_server.c:4693-4708 | the padding of section 5.1.1 makes whole blocks |
| Sha1.PaddingSays | ds4_server.c:4693-4708 | the padding is a one bit, zeros and the length in bits, below 2^64, read highest byte first, and takes no block more than it must |
| Sha1.WordBack | ds4_server.c:4625-4630 | the bytes of a word are read back as that word |
| Sha1.VarsBack | ds4_server.c:4702-4708 | the digest says what the five words of the hash value are |
| Sha1.DigestOf | ds4_server.c:4719-4730 | any split of a message into updates gives the digest of the message |
| DiskCache.Cache.Victim | ds4_server.c:5146-5156 | an entry that no other comes before in (score, last use) |
| DiskCache.Cache.Evict | ds4_server.c:5140-5172 | the loop ends; the victims left one by one as the least of those there; with every unlink succeeding the rest fits the budget or is empty, and nothing is evicted beyond the first point that fits |
| DiskCache.SurvivorsWorthMore | ds4_server.c:5140-5172 | no survivor comes before any victim |
| DiskCache.FreshIsWorth | ds4_server.c:5122-5138 | a file has no value if and only if it has no bytes or no tokens, also without any hits |
| DiskCache.UseIsWorth | ds4_server.c:5122-5138 | more hits, more tokens or fewer bytes never lower the value, and more hits raise it |
| DiskCache.LiveIsWorthLess | ds4_server.c:5130-5137 | a checkpoint that the session in memory continues is worth less than a quarter of what it were worth otherwise |
| HotPlan.UnionAtMost | pkg/ds4/metal_backend_darwin.go:316-350 | ranges cover at most the sum of their sizes |
| HotPlan.SeparatedSize | pkg/ds4/metal_backend_darwin.go:316-350 | separated ranges cover exactly the sum of their sizes |
| HotPlan.Compact | pkg/ds4/metal_backend_darwin.go:325-344 | the in-place loop leaves sorted, strictly separated ranges with the same union |
| HotPlan.ViewCovers | pkg/ds4/metal_backend_darwin.go:290-293 | the whole pages around a tensor cover it |
| HotPlan.ViewLeast | pkg/ds4/metal_backend_darwin.go:290-293 | and no smaller range of whole pages does |
| HotPlan.Plan.Merge | pkg/ds4/metal_backend_darwin.go:316-350 | the same bytes; selected becomes the exact size of their union |
| HotPlan.Plan.AddTensor | pkg/ds4/metal_backend_darwin.go:290-314 | a tensor is passed over exactly when it is no range already and there are too many ranges or its pages with the bytes covered so far exceed the budget; otherwise its pages are covered |
| HotPlan.Plan.Build | pkg/ds4/metal_backend_darwin.go:244-275 | for every list of tensors: within the budget, exact, separated; every tensor not passed over is covered at the end, also where the budget binds, and nothing else is |
| Quant.GroupIs | pkg/ds4/quant.go:146-153 | the element-by-element products of a group as one integer dot product and one sum |
| Quant.EveryBit | pkg/ds4/quant.go:97-144 | every bit of the packed weights, scales and minimums is read for one element or group, and only once |
| Quant.BlockIs | pkg/ds4/quant.go:97-144 | the same for a block, with the minimums taken from the group sums |
| Quant.DotQ2K16 | pkg/ds4/quant.go:146-153 | the packed group dot product, within 16 bits |
| Quant.Dots | pkg/ds4/quant.go:113-141 | the scaled integer sum of a block, every accumulator within 32 bits |
| Quant.Minimums | pkg/ds4/quant.go:106-112 | the sum of the minimums |
| Quant.VecDot | pkg/ds4/quant.go:97-144 | for any number of blocks, the exact sum of the dequantized products |
| Folds.InsertKeeps | linenoise.c:1138-1152 | after an insertion the folds are in order and clear of it, and each still hides what it hid |
| Folds.DeleteKeeps | linenoise.c:1156-1171 | after a deletion likewise |
| Folds.InsertExactly | linenoise.c:1138-1152 | an insertion gives up the folds it lands in and no others; those behind it move |
| Folds.DeleteExactly | linenoise.c:1156-1171 | a deletion gives up the folds it touches and no others |
| Folds.AddedKeeps | linenoise.c:1095-1108 | a fold clear of the others goes in its place |
| Folds.CursorIsPrefix | linenoise.c:1026-1062 | a cursor not inside a fold is shown where the text before it, shown alone, ends |
| Folds.VisibleAt | linenoise.c:998-1062 | every character outside the folds is shown, at its cursor |
| Folds.HiddenAt | linenoise.c:910-925 | between the cursors of its ends each fold shows its own text |
| Folds.ShownEnds | linenoise.c:998-1062 | and nothing else is shown |
| Folds.DecimalBack | linenoise.c:910-925 | the number in a fold is the number meant |
| FoldEdit.HopRightClear | linenoise.c:1066-1077 | a step right stays in the line, and ends clear of the folds if and only if a fold starts there or the character does not end inside one |
| FoldEdit.HopLeftClear | linenoise.c:1081-1092 | a step left likewise |
| FoldEdit.HopsOver | linenoise.c:1066-1092 | from either end of a fold a step goes to its other end |
| FoldEdit.BackRun | linenoise.c:1644-1659 | what deleting a word goes back over is blanks, or no blanks, or folds |
| FoldEdit.NormalKeeps | linenoise.c:1824-1835 | a pasted text without CR stays as it is |
| FoldEdit.NormalLines | linenoise.c:1824-1835 | CR and LF together, and CR alone, are one line feed each, wherever they stand |
| FoldEdit.DeleteClear | linenoise.c:1156-1171 | what a deletion leaves is clear of its place |
| FoldEdit.SwapKeeps | linenoise.c:1933-1955 | swapping text outside the folds changes nothing they hide |
| FoldEdit.HistoryFoldShows | linenoise.c:927-968 | for characters of any length, no line feed is shown of a recalled line that needs a fold |
| FoldEdit.HistoryFoldBytes | linenoise.c:927-968 | for one-byte characters eight are shown on each side that has no line feed in its eight |
| FoldEdit.ClearCursor | linenoise.c:1026-1062 | the cursor of a line clear of its folds is shown right |
| FoldEdit.Line.FoldAdd | linenoise.c:1095-1108 | the shifting loop puts the fold in its place, if it is not empty and there is room |
| FoldEdit.Line.FoldRemove | linenoise.c:1116-1122 | the fold is gone, the others keep their order |
| FoldEdit.Line.AdjustAfterInsert | linenoise.c:1138-1152 | the loop over the arrays moves, keeps or gives up each fold as specified |
| FoldEdit.Line.AdjustAfterDelete | linenoise.c:1156-1171 | the same for a deletion |
| FoldEdit.Line.InsertNoRefresh | linenoise.c:1487-1504 | the text inserted at the cursor if there is room; the folds follow and stay valid |
| FoldEdit.Line.MoveRight | linenoise.c:1548-1553 | over one character or one fold |
| FoldEdit.Line.MoveLeft | linenoise.c:1540-1545 | over one character or one fold |
| FoldEdit.Line.Delete | linenoise.c:1618-1627 | the character or fold at the cursor goes; the cursor ends clear |
| FoldEdit.Line.Backspace | linenoise.c:1630-1640 | the character or fold before the cursor goes |
| FoldEdit.Line.DeletePrevWord | linenoise.c:1644-1659 | blanks and the word before them go, in steps over characters and folds |
| FoldEdit.Line.KillToEnd | linenoise.c:2057-2062 | all behind the cursor goes |
| FoldEdit.Line.KillLine | linenoise.c:2051-2056 | an empty line without folds |
| FoldEdit.Line.Swap | linenoise.c:1933-1955 | the two characters change places unless one is long or a fold is touched; folds stay |
| FoldEdit.Line.Paste | linenoise.c:1776-1853 | the text with line feeds, hidden when long or of several lines; dropped exactly when there is no room or no place for a fold |
| FoldEdit.Line.Normalize | linenoise.c:1824-1835 | CR and CRLF become LF |
| FoldEdit.Line.Grow | linenoise.c:1454-1482 | the buffer doubles up to its maximum; a fixed one does not |
| FoldEdit.Line.Recall | linenoise.c:1575-1613 | the entry if there can be room, else cut to the room there is now, with one fold if it needs one |
| FoldEdit.Line.BuildHistoryFold | linenoise.c:927-968 | the fold of a recalled line |
| FoldEdit.Line.Render | linenoise.c:998-1062 | the buffer with each fold replaced, no gap negative, and the specified cursor place |

## Left out

- Allocation failure, the layout of nodes beyond the size of what recompression allots (for pointers of 8 bytes), the identity of reallocated nodes, random walks, the node callback and safe iteration of the radix tree. The 13-bit bitmap is thirteen truth values.
- Maximal compression of the radix tree is not claimed: after the last key of an ordinary node is gone, a compressed node below it is not considered (`rax.c:1316`).
- RaxTree.Rax.Remove: promises nothing about the tree after a merge that wrote outside of its node.
- The tool memory's two indexes are maps in its model; that the radix tree is one is proved beside it. Its counters are unbounded, its struct sizes those of a 64-bit system.
- The freeing of the whole tool memory, and the loops that remember a reply's calls.
- Sockets, HTTP, event framing, timestamps, send failures, logging and traces, and the ids given to tool calls.
- The Anthropic stream, the marker observer with its window, and finish reasons.
- StreamOpenAi.CuttingIsFree: is stated with no stop list, and for text without NUL bytes, because the searches of the source end at one.
- StreamSent.SpelledReceived: is about values that are strings or JSON texts; the stream sends any other value as it stands.
- PromptBack.ConversationExactly: is about texts that hold none of the prompt's markers; a marker in a user text is written as it is and read as a marker.
- Numbers are read with a point for the decimal mark, as in the C locale; their values are not part of this model.
- Strings hold no NUL: the source ends a decoded string at one, also after the escape `\u0000`.
- DsmlCalls.Render: the remembered raw text of calls is a field of a message in the prompt model; arguments that are no JSON object become one string parameter in the source, which is a call with that one parameter here. A schema's order of arguments is not applied, as no caller gives one.
- Prompt.AppendStable: is about conversations that ask for an answer; the texts of the tool schemas and of the longest thinking prefix are parameters.
- The engine, its tokens and its generation loop; `StopStream.Generate` takes the pieces of text as they come.
- Floating point: scores, cached rows and products are reals, half precision is an unknown function, and the exponential is one that may underflow. Norms, rotations and matrix products are not part of the model. Flat offsets into the decode state are pairs of indices.
- KvCache.Allow: takes the scores as given; their computation is left out.
- The message length of SHA-1 is unbounded, where the source counts in 64 bits.
- The file system of the disk cache is a function that says which files can be unlinked; the refresh of its entries is left out, and whether an entry is a prefix of the live session is a field.
- Sizes of the hot-range plan are unbounded, page alignment is by remainder, and the library's sort is an insertion sort.
- Terminal output, completion, hints, the history list itself and character widths of the line editor; the lengths of characters are parameters. Mask mode is fixed for a line.
- The dequantization of embeddings, whose element order differs from that of the dot product.
