# A verified model of the spfs file system

spfs is a small Linux file system: a B-tree that maps inode numbers to inode blocks, files stored
as chains of extents, directories stored as chains of blocks, and a first-fit allocator of sectors
that feeds all of them. This project models that machinery in Dafny and proves what it is for.
Everything runs on a mutable device (`Disks.Disk`, a map from sector numbers to blocks); node
buffers are arrays, free-list cells are linked objects, and sector buffers are byte arrays that the
methods change in place. Ghost trees, chains and maps say what the device stands for.

## What is proved

* **Inode index** (`BNode`, `Tree`, `Layout`, `BTree`, `Cost`, `Shrink`, `Rewrite`,
  `BTreeRemove`). The index refines a map. Insertion, modification, lookup and removal keep strict
  order, uniform depth, occupancy of at least half the capacity and child alignment through any
  cascade of splits, rotations and merges, and through growth and collapse of the root. Splitting
  is exact, a lookup reads at most as many nodes as the tree is high, and the height is
  logarithmic. Which nodes an insertion or a removal writes is read off the tree before it: a
  removal whose leaf keeps at least half the capacity writes that leaf and the node that held the
  key, and no other.
* **Files** (`Words`, `Stream`, `Extent`, `Chain`, `File`, `Regular`). `Pour` and `Drain` say what
  counting a position down through a piece of storage and copying does; they compose over
  concatenation, which carries the proof from one sector to an extent and on to a chain. A write
  refines overwriting a flat byte string, a read is a slice of it. Reading skips by bytes in use,
  writing by capacity; the two agree because every extent before the last is full.
* **Directories** (`Dir`, `Listing`). Children are written eight bytes apart and read back four by
  four. Reading a chain back gives the children in the order they were added, and a listing resumed
  over any number of calls gives each of them once.
* **Allocator** (`FreeList`). Over any run of allocations the free and the granted sectors are a
  partition of the free space at the start, and the block count is exact.
* **Whole device** (`Super`, `World`, `Run`, `FileSystem`, `Mount`). The mounted file system refines
  a map from numbers to byte strings and lists of children. Every operation keeps the invariant
  from which it follows that a sector has at most one owner, so an operation on one object leaves
  every other object as it was; read-after-write and the order of children hold over whole runs.
* **Threads** (`Locks`, `Interleave`). No state that any number of threads can reach is deadlocked,
  and every run ends with all operations done. Whatever the order of their critical sections, the
  outcome is that of the same operations one after the other, each object seeing its own in the
  order in which they took place; the order between objects can be kept too exactly when nobody
  acts on an object before it has its name.
* **Defects** (`IndexAsWritten`, `AsWritten`, parts of `FreeList` and `Locks`). For each defect of
  the compiled files listed under "Repairs", taken by itself with all other repairs made, the
  exact condition under which the source is still right, and for most of them an input on which it
  is not. For `spfs_write` and `spfs_read` also the joint statements, with none of the repairs
  made: when they give the inode lock back (`AsWritten.WriteReturns`, `AsWritten.ReadReturns`),
  and what size a write leaves behind (`AsWritten.SizeStays`).

`Mounts.Mount` builds a state in which `FileSystems.FileSystem.Valid` holds, starting from what is
stored on a device, such as the layout `mkfs.spfs.c` leaves; the preconditions of the operations
on files, directories, index and allocator are parts of that invariant.

Node capacity is a parameter `c`, even and at least 2, fixed to 100 by `Mounts.Mount`; the node
layout of 4 + 16c + 8(c + 1) bytes then needs blocks of at least 2412 bytes. Inode numbers are not
0, which the source uses for "no bubble". Sector numbers, lengths and capacities are stored in 32
bits, so the device is required to be small enough for its byte offsets (`Supers.Small`).

## Repairs

The source is unfinished. The model follows its evident intent; these are the places where the two
differ.

* `btree.c:229-237`, `btree.c:263-264`, `btree.c:297-316`: differences of entry addresses are byte
  counts; the model uses element counts (`IndexAsWritten.BytesForIndex`).
* `btree.c:350-351`: without a greater-or-equal entry the new entry goes to the front; it belongs
  at the end (`IndexAsWritten.FrontPutSorted`). `btree.c:368-369`: its child goes last; it belongs
  right behind the entry (`IndexAsWritten.ChildLast`). `btree.c:342-344`: inserting into an empty
  node wipes child 0, which root growth has just set (`IndexAsWritten.WipingRight`,
  `IndexAsWritten.WipedRoot`).
* `btree.c:810`, `btree.c:853-858`, `btree.c:881-887`: a child sector 0 is read as a node; it stands
  for the missing tree of the base case (`IndexAsWritten.InsertReadsSuper`).
* `btree.c:936`: the bubble stays active after it was taken in; it is cleared
  (`IndexAsWritten.BubbleKept`).
* `btree.c:758-759`, `btree.c:965`: the address of the median is stale once the bubble went in left
  of it; the median is the last entry (`IndexAsWritten.MedianAddress`).
* `btree.c:1007`: a new root is built in the sector of the old one; it is built in its own
  (`IndexAsWritten.RootNeverThere`).
* `btree.c:796-798`, `btree.c:812-815`: 1 means both a duplicate and a full device; the results
  `Duplicate` and `NoSpace` are separate (`IndexAsWritten.AnswerTells`), and `Bug` stands for the
  `BUG_ON` of `btree.c:945` and of `btree.c:1094`.
* `sp.c:1107`: bytes written behind the first sector of an extent are not counted
  (`AsWritten.HeadCountRight`). `sp.c:1081`, `sp.c:1107`: the length of an extent grows by every
  byte written, also on overwriting (`AsWritten.LengthAdded`). `sp.c:1305-1308`: every write that
  puts a byte into the first sector of an extent counts as an error; only negative results do
  (`AsWritten.GivesUpUnless`, `AsWritten.EmptyFileStuck`). `sp.c:1320`: the size grows by every byte
  counted, against the POSIX.1-2017 text for `write()` quoted at `sp.c:1245-1247`; it grows to the
  end of the write. As it stands nothing is ever counted when this line is reached
  (`AsWritten.SizeStays`), and with every byte counted the line is right for appending only
  (`AsWritten.SizeAdded`).
* `sp.c:855-870`: reading an extent goes on for ever when the count is used up first
  (`AsWritten.ReadLoopEnds`, `AsWritten.ReadEndsWell`); the loop also ends there.
* `sp.c:455`: a new directory block, or none when the allocation failed, replaces the first one
  (`AsWritten.AddReplacingKeeps`); it is linked behind the last.
* `sp.c:1290-1294`, `sp.c:1305-1308`, `sp.c:926-930`: error exits keep the inode lock, those for an
  extent that cannot be parsed (`sp.c:821-825`, `sp.c:1058-1062`) included (`Locks.WriteLeaks`,
  `Locks.ReadLeaks`, `AsWritten.WriteReturns`, `AsWritten.ReadReturns`, `Locks.LeakBlocks`); they
  release it.
* `btree_remove.c` is a half-finished port that the `Makefile` does not build. Its control flow is
  kept, its stubs (`btree_remove.c:47-136`) are filled in by their names, `balance` is read as
  `*balance`, and a rotation at leaf level moves a child 0 (`btree_remove.c:257`).

## Model

| member | source | states |
|---|---|---|
| Entries.InsIsMapInsert | btree.c:1050-1100 | inserting an entry by its rank into a sorted list is adding a key to the map the list stands for |
| Entries.RemIsMapRemove | btree_remove.c:575-598 | taking the entry of a key out of a sorted list is removing the key from the map |
| BNodes.BNode.BinFindGte | btree.c:239-294 | the binary search ends with the position of the first entry not below the needle, the length when all are below; its loop always makes progress |
| BNodes.BNode.BinInsert | btree.c:328-379 | a node that is not full takes an entry at its rank and the greater child right behind it; a full one refuses and stays as it is |
| BNodes.BNode.Median | btree.c:657-682 | of a full node and one entry more the median has rank (c + 1) / 2, whether it is in the node or is the extra entry |
| BNodes.BNode.Partition | btree.c:684-743 | everything above the pivot, with its children, moves to the empty node on the right; the rest stays |
| BNodes.BNode.Extract | btree.c:745-774 | the last entry leaves the node and its greater child becomes child 0 of the right node |
| BNodes.BNode.TakeAt | btree_remove.c:84-97 | one entry and one child leave a node, all others keep their order |
| BNodes.BNode.MergeIn | btree_remove.c:61-82 | a node takes the separator and a whole right sibling behind its own contents exactly when they fit |
| BNodes.SplitRight | btree.c:940-987 | bubble right of the median: left half, last entry and right half are the two halves and the median of the node with the bubble in place |
| BNodes.SplitLeft | btree.c:940-987 | the same for a bubble left of the median, where the median moves to the end of the left half |
| BNodes.SplitMiddle | btree.c:940-987 | the same for the bubble as median, whose greater child becomes child 0 on the right |
| Trees.Descend | btree.c:838-899 | in an ordered tree everything left of the child chosen by the search is below the key and everything right of it is above |
| Layouts.StoredKid | btree.c:565-625 | a search that misses a node continues in a stored subtree that holds the key exactly when the tree does |
| Layouts.StepSwell | btree.c:901-908 | with the separator of a split child taken in, the contents are the old ones with the new entry inserted, and children stay aligned |
| Layouts.StepSplits | btree.c:940-987 | the two halves of a full node are stored trees of the same height with at least half the capacity, left + median + right being the inserted contents |
| Layouts.NewRoot | btree.c:990-1048 | a root grown around the two halves is a stored tree one level higher with the same contents |
| BTrees.BTree.Insert | btree.c:800-911 | the recursion: result, tree left behind, separator and sector that bubble up, blocks consumed, and sectors left untouched, for any depth of splits |
| BTrees.BTree.Absorb | btree.c:901-987 | taking a bubble into a node or splitting it yields the grown subtree, or a bug exactly when a full node meets an empty allocator |
| BTrees.BTree.FixUp | btree.c:913-988 | a node with room holds the bubble afterwards; a full one is cut around the entry of rank c / 2 of the node with the bubble, the right half going to one fresh sector |
| BTrees.BTree.Split | btree.c:949-985 | in all three cases the buffers end as the two halves of the node with the bubble inserted, and the median comes out |
| BTrees.BTree.AllocRoot | btree.c:990-1048 | the new root is a fresh sector holding the separator between the old root and the new right node |
| BTrees.BTree.SpfsInsert | btree.c:1050-1100 | the index maps one more number to its inode; a duplicate or a full device leaves device, tree and allocator as they were; the sectors consumed are exactly those needed, and only the nodes whose child sends a separator up are written |
| BTrees.BTree.SpfsModify | btree.c:565-625 | the index becomes m[k := f(m[k])] when k is present and stays when it is absent, answered by 0 and 1; only that inode block is written and at most as many nodes are read as the tree is high |
| BTrees.BTree.VisitEntry | btree.c:527-557 | the callback sees the inode of the entry, and the block is written back exactly when the callback asks for it |
| BTrees.BTree.SpfsLookup | btree.c:627-643 | lookup returns the inode of the index, if any, and never changes the device |
| BTrees.ReworkedStops | btree.c:901-911 | an insertion that ends in a node with room writes no node above it |
| Costs.TreeSize | btree.c:914-988 | a tree of height h > 0 holds at least 2 (c/2 + 1)^(h-1) - 1 entries |
| Costs.HeightBound | btree.c:565-625 | the height, and with it the nodes a lookup reads, is logarithmic in the size of the index |
| Costs.SplitsBound | btree.c:800-911 | a fresh key splits at most one node per level, and all of them exactly when a separator reaches the top |
| Costs.NeededBound | btree.c:800-1048 | a fresh key takes between 1 and height + 2 sectors, the most exactly when every node on its path is full |
| Shrinks.RotateLeft | btree_remove.c:154-214 | moving the separator left and the first right entry up keeps the in-order contents and the sectors, child moving along |
| Shrinks.RotateRight | btree_remove.c:215-282 | the mirror image keeps contents and sectors |
| Shrinks.Merge | btree_remove.c:285-393 | left, separator and right in one node keep the contents and give up the right sector |
| Shrinks.MergeFits | btree_remove.c:22-45 | a deficient node, the separator and a sibling at the minimum fit one node exactly for even capacity |
| Shrinks.PredOrder | btree_remove.c:470-511 | writing the predecessor over an entry removes exactly that entry |
| Shrinks.SuccOrder | btree_remove.c:470-511 | so does writing the successor over it |
| Shrinks.PluckedLeaf | btree_remove.c:398-418 | a leaf without entry i holds its contents without element i |
| BTreeRemoves.Rebalance | btree_remove.c:139-393 | an entry moves over from a sibling with more than c / 2 entries, otherwise the two are merged when either is deficient and left alone when neither is; the contents stay, only the nodes concerned are written, and the flag says whether the node lost an entry |
| BTreeRemoves.TakeLeaf | btree_remove.c:398-418 | entry i leaves a leaf, which alone is written, and the flag is set exactly when fewer than c / 2 entries are left |
| BTreeRemoves.TakeMax | btree_remove.c:420-443 | the greatest entry leaves a subtree, which stays well formed up to a deficient root; flag and written nodes are those read off the tree before |
| BTreeRemoves.TakeMin | btree_remove.c:445-468 | the same for the least entry |
| BTreeRemoves.TakeIntNode | btree_remove.c:470-511 | an entry of an inner node is replaced by its predecessor: exactly its key is gone |
| BTreeRemoves.TakeSuccessor | btree_remove.c:493-505 | an entry of an inner node is replaced by its successor: exactly its key is gone |
| BTreeRemoves.Take | btree_remove.c:521-573 | a key is found exactly when the subtree holds it, and the contents afterwards are the old ones without it; flag and written nodes are those read off the tree before; an absent key changes nothing |
| Rewrites.LeafAlone | btree_remove.c:398-418 | when the leaf that gives up an entry keeps at least c / 2, no node is left short, and the leaf and the node that held the key are all that is written |
| Rewrites.FewRewritten | btree_remove.c:521-573 | a removal writes at most two nodes a level and one at the root |
| BTreeRemoves.SpfsBtreeRemove | btree_remove.c:575-598 | the index afterwards is the old map without the number, every tree invariant holds, an emptied root gives way to its only child, and nothing changes when the number is absent; only the nodes named by `Rewrites` are written |
| FreeLists.CarveExact | free_list.c:118-148 | one allocation moves exactly the run it hands out from free to used, and answers 0 exactly when the total is not above the request or no extent is long enough |
| FreeLists.CarveAllocates | free_list.c:126-144 | a granted run is the last sectors of the first extent that is long enough; that extent keeps its start and loses them, and all others stay as they are |
| FreeLists.AllocatedOnce | free_list.c:126-144 | there is only one such outcome |
| FreeLists.RunConserves | free_list.c:118-148 | over any run of positive requests granted and free sectors partition the free space at the start, counts add up, and the last block is never given away |
| FreeLists.AnswerTaken | free_list.c:118-148 | the sector answered was free and no longer is exactly for a positive request; a request for nothing is answered with the sector behind the first extent |
| FreeLists.FreeList.Alloc | free_list.c:118-148 | hands out the tail of the first extent with room, or nothing exactly when the total is not above the request or no extent is long enough; block total and cells kept in step |
| FreeLists.FreeList.AllocOne | free_list.c:118-148 | a single sector is refused exactly when at most one block is left |
| FreeLists.FreeList.Init | free_list.c:63-114 | loading an ending chain yields its entries, last first, with their total, and a valid list when they do not overlap; a foreign block is an error |
| FreeLists.ListNoCycle | free_list.c:70-111 | a chain whose walk ends visits no block twice |
| FreeLists.ReversedSame | free_list.c:88-106 | loading in reverse changes neither total, cover nor disjointness |
| FreeLists.ReversedAt | free_list.c:88-106 | the entry loaded last comes first |
| Words.DecEnc | util.c:41-63 | a number survives the 32-bit codec exactly when it is below 2^32; otherwise its low 32 bits do |
| Words.EncDec | util.c:41-63 | four bytes survive decoding and encoding |
| Words.EncBytes | util.c:53-65 | the most significant of the four bytes of a number comes first |
| Words.WordIs | util.c:40-50 | four bytes mean the number that has them in this order |
| Words.Buffer.ReadU32 | util.c:40-50 | reads a big-endian word and advances by four exactly when four bytes remain |
| Words.Buffer.ReadWide | util.c:98-112 | reads a big-endian word and advances by four, but only when eight bytes remain |
| Words.Buffer.WriteU32 | util.c:53-65 | writes a word over the buffer, most significant byte first, and advances exactly when four bytes remain; all other bytes stay |
| Streams.PourAppend | sp.c:1005-1031 | writing to two pieces of storage in turn is writing to their concatenation |
| Streams.DrainAppend | sp.c:826-875 | reading from two pieces in turn is reading from their concatenation |
| Streams.PourOverwrites | sp.c:1249-1327 | pouring into storage whose front is a byte string overwrites the string and uses up input and position |
| Streams.ReadBack | sp.c:880-948 | reading where one wrote gives back the input, and bytes outside the range keep their value |
| Extents.DoWrite | sp.c:1005-1031 | position and input are counted down through the rest of a buffer as by pouring into it; the bytes in front stay |
| Extents.HeaderBytes | sp.c:730-778 | the 16 bytes of the header: magic number, next, capacity, length, each most significant byte first |
| Extents.ParseFileExtent | sp.c:730-757 | accepts exactly the magic number and returns the header stored |
| Extents.MakeFileExtent | sp.c:759-777 | writes the header and keeps all data bytes behind it |
| Extents.WriteInner | sp.c:1089-1121 | the loop over the sectors behind the first pours into their concatenation and tracks how far the bytes in use reach |
| Extents.WriteFileExtent | sp.c:1038-1136 | the data of an extent is poured into, its length is the furthest byte in use, a waiting extent is linked behind the last one and cleared, and no other sector changes |
| Extents.ReadFileExtent | sp.c:801-874 | reads from the bytes in use of an extent and names its successor |
| Chains.ReadableIsContent | sp.c:801-948 | when all extents before the last are full, the bytes found by length are the front of the bytes found by capacity |
| Chains.BeforeIs | sp.c:1249-1327 | what is left over before each extent is what pouring into all extents in front leaves over |
| Chains.FilledWrite | sp.c:1087-1121 | a write within the capacity keeps every extent before the last full and the last holding the rest of the size |
| Chains.FilledGrow | sp.c:1064-1071 | so does a write that runs over into a fresh last extent |
| Files.WriteChain | sp.c:1293-1318 | the loop of a write pours into the whole chain and returns the full input length; the assertions that no extent waits and no input is left over hold at its end |
| Files.ChainKept | sp.c:801-948 | a file whose sectors do not change keeps chain, storage and readable bytes |
| Supers.SuperBlock.FileExtentAlloc | sp.c:968-1003 | a fresh extent of exactly the blocks asked for, empty and unlinked, taken from the free space; on failure nothing changes |
| RegularFiles.BlocksFor | sp.c:1138-1147 | the least number of blocks that hold the bytes |
| RegularFiles.CalcExtraBlocks | sp.c:1149-1181 | 0 exactly when the capacity suffices, otherwise the least extent that makes room, header included |
| RegularFiles.BytesReadable | sp.c:801-948 | for a file in order the readable bytes are its content, whose length is its size |
| RegularFiles.WriteDone | sp.c:1249-1327 | after the loop of a write the file is in order again and its content is the old one overwritten |
| RegularFiles.SpInode.EnsureCapacity | sp.c:1183-1238 | room for the write with the smallest single new extent, which waits to be linked or is the first; start and capacity are recorded in the inode block; fails exactly when the allocator does, changing nothing |
| RegularFiles.SpInode.Write | sp.c:1249-1327 | the content becomes the old one overwritten from min(position, size), the whole input is counted, the size is max(old, end), and only own, free and inode sectors change; fails exactly for lack of an extent, changing nothing; the free list loses exactly the new extent, which belongs to the file afterwards |
| RegularFiles.SpInode.Read | sp.c:880-948 | returns content[min(p, size) .. min(p + n, size)] and advances by the bytes returned |
| Directories.DirGrows | sp.c:343-358 | writing child n into slot n and counting it appends it to the children of the block and keeps gaps and tail zero |
| Directories.SlotWord | sp.c:592-616 | at every step of the reader the next word is the child or the empty gap before it, with at least eight bytes remaining |
| Directories.DirLayout | sp.c:292-358 | a directory block byte by byte: magic number, next, count, then at most 100 children, one every eight bytes from byte 12 on |
| Directories.DirWriteChild | sp.c:343-358 | writes the child at stride eight exactly when eight bytes remain |
| Directories.KidsLen | sp.c:337-341 | a chain has room in its last block exactly when the number of children is no multiple of 100 |
| Directories.WalkBlock | sp.c:592-616 | reading a block at stride four and skipping zeros visits its children in order until the callback stops |
| Directories.SpDirectory.AddChild | sp.c:397-475 | the child is appended, in the last block or in a fresh one linked behind it; fails exactly when a block is needed and the allocator has none, changing nothing but the child counter |
| Directories.SpDirectory.ForAllChildren | sp.c:552-628 | the callback sees the inodes of all children in the order they were added, until it stops; nothing changes |
| Listings.EmitDots | sp.c:1374-1377 | the two dots are given once, from the cursor on, until refused; each of them was accepted |
| Listings.WalkLists | sp.c:1335-1354 | the walk with the listing callback skips the children before the cursor and gives those behind it until one is refused; each given child was accepted |
| Listings.Iterate | sp.c:1356-1387 | one call gives exactly the items between the old and the new cursor, each of which the consumer accepted, and stops short of the end only where it refused |
| Listings.RoundOnce | sp.c:1356-1387 | the consumer and the cursor leave only one outcome of a call |
| Listings.SessionGives | sp.c:1356-1387 | over any number of calls, with refusals anywhere and children appended in between, the items given are the front of the list up to the cursor |
| Listings.SessionComplete | sp.c:1356-1387 | a session whose last call was not refused an item has given the two dots and then every child once, in the order they were added |
| Worlds.OneObject | sp.c:1249-1327 | an operation that writes only sectors of one object, fresh sectors and inode blocks leaves every other object in place and with its value |
| Worlds.NewInode | sp.c:219-273 | an insertion into the index leaves every file and directory in place and with its value |
| Worlds.OneOwner | free_list.c:118-148 | super block, free-list blocks, free space, index nodes, inode blocks, files and directories never share a sector |
| Runs.UntouchedKept | sp.c:1249-1327 | over any run an object that no operation names keeps its value |
| Runs.WriteThenRead | sp.c:880-948 | after a write and any run of operations on other objects, reading at that place returns the input, bytes around it being as before |
| Runs.ChildrenGrow | sp.c:397-475 | over any run the children of a directory are only appended to |
| Runs.CreatedStays | sp.c:478-549 | a child once listed stays at its place whatever happens later |
| Runs.ListingsGrow | sp.c:1356-1387 | the listing calls of any run on one directory are rounds over lists that only grow |
| Runs.RunLists | sp.c:1356-1387 | listing calls scattered over a run of creations and writes, each going on where the last one stopped, give every child of the directory once and in order up to the cursor; all of them when the last call is not refused an item |
| FileSystems.FileSystem.WriteFile | sp.c:1249-1327 | refines overwriting one byte string of the abstract file system, all other values staying; succeeds exactly when capacity or allocator allow; an empty write changes nothing; index, capacity, free list and the sectors written are given exactly |
| FileSystems.FileSystem.ReadFile | sp.c:880-948 | is an enabled read of the abstract file system: returns a slice of one byte string |
| FileSystems.FileSystem.List | sp.c:1356-1387 | is an enabled listing of the abstract file system: one round over the children of a directory; the answer tells whether both dots were given |
| FileSystems.FileSystem.GenericCreate | sp.c:219-273 | the next number, an inode of capacity 0 and start 0 for it in the index, which has no other change, and an empty object; refused exactly when at most one block is left, and a bug exactly when more are left but not those the insertion needs |
| FileSystems.FileSystem.Create | sp.c:478-549 | refines adding an empty object and appending it to its parent, whose counter grows; says exactly when there is no room at all, when the insertion halts, and when the inode stays without a name; index, block count and the sectors written are given exactly |
| FileSystems.FileSystem.AddToParent | sp.c:397-475 | the parent gains the child, unless its blocks are full and no sector is to be had; its counter grows in any case, and only its blocks and the sector taken are written |
| FileSystems.MadeWhen | sp.c:219-273 | the four outcomes of a creation in numbers of free blocks |
| FileSystems.FileSystem.MakeRoot | sp.c:1537-1548 | the root directory appears in memory under the next number, which is used up, empty |
| FileSystems.FileSystem.LoadDirectory | sp.c:165-217 | a directory of the index that is not in memory appears with the children its blocks hold, all other values staying |
| FileSystems.SectorsOwned | free_list.c:118-148 | in every state of a mounted file system a sector has at most one owner |
| Mounts.SuperReadBack | mkfs.spfs.c:127-166 | the super block written by formatting has its fields at bytes 4, 8, 12, 16, 20 and 24 behind the magic number, and is accepted and read back field by field |
| Mounts.FormattedSound | mkfs.spfs.c:127-247 | a zeroed device after formatting holds a super block naming an empty index and a sound free list of one extent from sector 2 on |
| Mounts.ReadSuper | sp.c:1390-1472 | accepts a super block exactly when it begins with DE AD BE EF and its block size is at least 512, and returns its fields |
| Mounts.FindRoot | sp.c:1537-1548 | the root directory is the one of the index, or an empty one in memory under the next number, which is used up only then |
| Mounts.Mount | sp.c:1489-1563 | fails exactly on a bad super block or a broken free list; otherwise the file system is valid, over the stored index with nodes of 100 entries and the free list, the last entry first, holds the root directory as stored or newly made, and goes on counting from the stored number or the one behind it |
| IndexAsWritten.BytesForIndex | btree.c:228-316 | a byte count serves as an index for the first entry only, and the first probe of a search in a node with entries lies behind all of them |
| IndexAsWritten.FrontPutSorted | btree.c:350-351 | the node stays in order exactly when some entry is greater or there is none |
| IndexAsWritten.ChildLast | btree.c:368-369 | the child is in its place exactly when all children it belongs in front of are equal to it: always in a leaf, where all are 0, and for the greatest key |
| IndexAsWritten.KeptSize | btree.c:929-937 | with the bubble kept active the contents grow by one entry when all nodes on the path are full and by more otherwise |
| IndexAsWritten.BubbleKept | btree.c:929-937 | with the bubble kept active an insertion yields the contents with the new entry exactly when every node on the search path is full |
| IndexAsWritten.MedianAddress | btree.c:745-774 | when the bubble is not the median, the kept address is that of the last entry, and of the median, exactly when the bubble belongs right of the median |
| IndexAsWritten.WipingRight | btree.c:342-344 | the insertion into a node is right exactly when it has entries or its child 0 is 0 |
| IndexAsWritten.WipedRoot | btree.c:1020-1028 | a grown root that loses its first child keeps all entries exactly when the old tree had none |
| IndexAsWritten.ReadsSuper | btree.c:838-899 | a subtree is searched without reading sector 0 as a node exactly when it holds the key |
| IndexAsWritten.InsertReadsSuper | btree.c:853-887 | an insertion stays clear of the super block exactly when the index is empty or holds the key |
| IndexAsWritten.RootNeverThere | btree.c:1001-1018 | no tree at all is stored at the new root sector; in an empty index the super block becomes a node |
| IndexAsWritten.AnswerTells | btree.c:795-834 | the answer 1 tells a duplicate exactly when more than one block is free or the key is there |
| IndexAsWritten.FrontPutFails | btree.c:350-351 | a node of one entry and a greater key leave the order |
| IndexAsWritten.ChildLastFails | btree.c:368-369 | a smaller key in an inner node gets the wrong child |
| IndexAsWritten.BubbleKeptFails | btree.c:929-937 | a leaf with one entry and room for 99 more yields wrong contents |
| IndexAsWritten.ReadsSuperFails | btree.c:853-887 | a fresh key in a one-leaf index reads sector 0 |
| IndexAsWritten.MedianAddressFails | btree.c:757-759 | a key below all entries of a full leaf of 100 moves the median away from its address |
| IndexAsWritten.WipingFails | btree.c:342-344 | an empty node with a child loses it |
| AsWritten.HeadCountRight | sp.c:1087-1136 | the count is right exactly when nothing goes behind the first sector, and reads as success exactly when nothing goes into it |
| AsWritten.LengthAdded | sp.c:1079-1085 | the length is right exactly when nothing is written, the write starts at the end of the bytes in use, or the extent lies before the position |
| AsWritten.GivesUpUnless | sp.c:1300-1318 | a write gets through all its extents exactly when it keeps to the inner sectors of one extent and all extents it visits can be parsed; otherwise it ends with an error or halts |
| AsWritten.WriteReturns | sp.c:1281-1322 | a write gives the inode lock back exactly when the capacity suffices or an extent is found, every extent it visits can be parsed, and it keeps to the inner sectors of one extent |
| AsWritten.EmptyFileStuck | sp.c:1281-1322 | no write to an empty file ever gives the inode lock back |
| AsWritten.Counted | sp.c:1300-1318 | the bytes a write counts as it stands: none, whenever it comes to its end |
| AsWritten.SizeStays | sp.c:1300-1326 | a write that comes to its end answers 0 and leaves the size as it was, which is right exactly when the file reaches that far already |
| AsWritten.SizeAdded | sp.c:1320 | this line alone, with every byte counted: the size is right exactly when nothing is written or the write appends |
| AsWritten.ReadLoopEnds | sp.c:826-872 | the loop ends exactly when the bytes asked for reach to the end of the extent |
| AsWritten.LastTurnIs | sp.c:830-872 | when it ends, position and count have been used up by the bytes of the extent, first the one, then the other |
| AsWritten.ReadEndsWell | sp.c:921-939 | a read returns exactly when every extent it visits can be parsed and the bytes asked for end at the end of an extent, or at the end of the file or behind it; it goes on for ever exactly when they end inside an extent it gets to, and fails otherwise |
| AsWritten.ReadReturns | sp.c:918-941 | a read gives the inode lock back exactly in the first of these cases |
| AsWritten.AddReplacingKeeps | sp.c:449-468 | the children are those they should be exactly when the last block has room or there were none, whether the allocation of a block succeeds or fails |
| AsWritten.RoomForAll | sp.c:343-358 | all 100 children of a block fit exactly from a block size of 812 on |
| AsWritten.ScanFinds | sp.c:592-616 | the reader finds all children of a block, in order, and fails when more are counted than stored |
| AsWritten.DroppedChild | sp.c:425-431 | a child counted but dropped for lack of room makes reading its block fail |
| AsWritten.HeadCountFails | sp.c:1087-1136 | a write that fills the first sector of 496 bytes and goes on in the next is counted short |
| AsWritten.LengthAddedFails | sp.c:1079-1085 | overwriting a byte of a full extent of 496 bytes makes it longer than it is |
| AsWritten.SizeAddedFails | sp.c:1320 | overwriting one byte makes the file longer, were it counted |
| AsWritten.SizeStaysFails | sp.c:1300-1326 | a byte appended at position 500 comes to its end and leaves the size at 500 |
| AsWritten.ReadLoopFails | sp.c:826-872 | reading the first byte of a file of two or more in one extent never ends |
| AsWritten.FirstWriteFails | sp.c:1300-1308 | the first byte ever written to a file, in an extent of 496, leaves its lock held |
| AsWritten.AddReplacingFails | sp.c:449-468 | the 101st child is the only one left |
| Locks.CallClimbs | sp.c:397-475 | every operation takes inode, tree and free-list lock in this order and gives all of them back |
| Locks.CallUses | sp.c:219-273 | which of inode, index, free list and counter an operation uses; it holds the lock of each while it does |
| Locks.Exclusive | sp.c:244-252 | under any schedule nobody uses what a lock is there for without holding it, and no two threads use it at the same time, so that two are never both inside an insertion |
| Locks.RunOrderly | sp.c:1183-1238 | under any schedule no lock is held twice and every thread goes on in order |
| Locks.FindRunnable | free_list.c:126-144 | from any blocked thread the chain of lock holders leads to one that can move |
| Locks.NoDeadlock | sp.c:1281-1322 | whatever operations any number of threads run, no reachable state is deadlocked and no thread holds two inode locks |
| Locks.AllFinish | sp.c:1281-1322 | under every schedule that cannot be continued all threads have done all their operations and hold nothing; a run takes exactly as many steps as there are lock actions |
| Locks.WriteLeaks | sp.c:1281-1322 | a write as it stands gives its lock back exactly when it does not fail for lack of an extent and does not give up on the way; then it is the repaired write. `AsWritten.WriteReturns` says when it gives up |
| Locks.ReadLeaks | sp.c:921-941 | a read as it stands keeps its lock exactly when it fails or goes on for ever; otherwise it is the repaired read. `AsWritten.ReadEndsWell` says when |
| Locks.LeakBlocks | sp.c:921-931 | whoever waits for a lock its holder does not give back waits for ever, the holder included |
| Locks.LeakThenWrite | sp.c:1281-1308 | a thread that kept the lock of a file never gets into its next write of that file |
| Interleavings.Split | sp.c:397-475 | a run over two sets of objects is a run over each of them, every object seeing its operations in the same order |
| Interleavings.NamedLast | sp.c:478-503 | naming an object that was made earlier comes to the same as making it now and doing now all that was done with it in between |
| Interleavings.Serializable | sp.c:478-549 | by induction over any order of critical sections, with the creations under way counted as nameless: a run with the same operations and outcomes leads to the same state |
| Interleavings.Interleaved | sp.c:478-549 | whatever any number of threads do, section by section, some sequential run has exactly their operations with their outcomes, leads to the same state, and shows every object its operations in the order in which they were over |
| Interleavings.OrderKept | sp.c:259-265 | the operations form a run in the very order in which they were over exactly when none acted on an object between its insertion and its naming |
| Interleavings.OrderLost | sp.c:259-265 | a write to a file not named yet, over before another creation in the same directory begins, comes after it in the only run that does the same |

## Left out

- VFS plumbing, slab caches, dentries, reference counts and dirty marking: `sb_bread` is total access to sectors.
- `iget_locked`: an inode is looked up in the index each time; the error value for a failed allocation is not modelled.
- Crash consistency and write errors: nothing in the source orders its writes.
- Persistence of free list, tree root, number counter and directory start across unmount: the source never writes them back.
- Names, modes, owners and timestamps: an inode is a record of number, capacity and start, so lookup by name and the string codec of `util.c:164-186` are not part of this model.
- Bytes of index nodes, inode blocks and free-list blocks: they are typed blocks, so alignment, byte order and stale bytes behind the length of a node are not modelled.
- `spfs_free_dealloc` is a stub; sectors given up by removal are garbage that is never handed out again.
- Removal is proved on the index alone; the source never calls it, so it is no operation of `FileSystems.FileSystem`.
- Directory entries beyond the inode number, `rmdir`, `unlink` and truncation: the source has none of them.
- The order in which threads interleave inside critical sections: `Locks` models lock actions and `Interleave` whole sections, with the insertion of `FileSystem.GenericCreate` and the naming of `FileSystem.AddToParent` as the two of a creation; that sections on different objects running at the same time do not disturb each other is taken from `Worlds.OneObject`, not from a model of single memory accesses. The inode numbers given out under `id_lock` appear in `Interleave` as numbers no other creation was given.
- Locks of the VFS: `Interleave` lets threads create in one directory at the same time, which the lock of the parent in the VFS would prevent.
- The size of a file across mounts: `i_size` is not part of the stored inode (`btree.c:381-524`). Regular files of the index are not brought into memory either, only directories are (`FileSystems.FileSystem.LoadDirectory`), so `files` holds the files made since the mount.
- `fsck.spfs.c` and the byte output of `mkfs.spfs.c`: only the layout it leaves is taken, as the start of all runs.
- BTrees.BTree.SpfsInsert: promises no valid index after the result `Bug`, where the source stops the kernel.
- BTreeRemoves.TakeSuccessor: is not called, since in a valid index an inner node has both children of every entry.
- FileSystems.FileSystem.GenericCreate: promises no valid state after the result `Bug`, where the source stops the kernel.
- FileSystems.FileSystem.Create: promises no valid state after the result `Halted`, where the source stops the kernel, and requires the next inode number to fit 32 bits, since directory blocks store no more.
- Mounts.Mount: requires blocks large enough for an index node of capacity 100, where the source only asks for 512 bytes, and that what the super block names is a stored index and free list, which the source takes on trust.
