# Verified models from uCore

This project models, in Dafny, the parts of the uCore tree that do the most with state: the Kconfig expression
simplifier, the menu and symbol code of the configuration tool, the user-level allocator, the tool that builds an SFS
image, and three concurrent user programs. It proves properties of these models for all inputs, all runs or all
interleavings.

Files by component:

- `KconfigExpr`, `KconfigEq`, `KconfigForms`, `KconfigDups`, `KconfigPasses`, `KconfigDedup`, `KconfigClean`,
  `KconfigExact`, `KconfigLoss`: dependency expressions with values n, m, y; negation normal form, constant folding,
  comparison and simplification. Places in an operator chain are modelled as paths, because the passes rewrite the tree through two pointers into it.
- `Malloc`, `MallocHeap`: the circular free list and the functions that update it in place.
- `SfsMap`, `SfsDisk`, `SfsLinks`, `SfsHost`, `SfsNeed`, `Sfs`: block pointers, block numbers and caches, directories and
  link counts, the host tree, the blocks it needs, and the builder itself.
- `MenuTree`, `MenuSteps`, `MenuSpec`, `Menu`: menu nodes with next, list and parent pointers, what becomes of the trees
  they spell out, `menu_finalize` and the walk of `conf_write`.
- `SymbolDeps`, `SymbolSpec`, `SymbolChoice`, `SymbolValues`, `SymbolMeaning`, `SymbolRewrite`: the check for recursive
  dependencies, the calculation of symbol values, what the values mean, and what rewriting does to them.
- `Sieve`, `Primer`: the prime sieve as a pipeline of processes over one-place slots.
- `Spipe`, `SpipeFifo`, `SpipeLate`, `SpipeCodes`: the shared-memory pipe, and what failed waits do to it.
- `ReadersWriters`: readers and writers with two semaphores and a counter.
- `ConfString`, `ConfFile`: string values in the configuration file, written with escapes and read back through a line buffer.
- `Common`: a few notions used in several of these.

For the concurrent programs a state is a value, a move is one access to a lock, a semaphore or the data between two such
accesses, and a run is any sequence of moves by any of the processes; every theorem about runs quantifies over all of them.

## Where the code and what it promises differ

- `expr_eliminate_dups` does not keep the value m in general: `DedupLosesMod` gives an expression that is m and is simplified
  to n. `DropContradictedExactly` says for each replacement exactly when the value is kept. Exactly when the
  whole simplification keeps it is said by `DedupExactly`, where AND and OR alternate at most once, and by `DedupExactlyWhen`,
  at any depth where no operands join and nothing below the top is contradicted. For all expressions `LostIsDecided` says
  which value can take the place of m, and `DedupRefines`, `DedupKeepsDefinite`, `UndecidedIsKept` and
  `DedupExactWithoutComplements` say when nothing is lost.
- `expr_eq` is not transitive on expressions with n among their operands: `EqIsNotTransitive`. Without y and n below an
  operator `EqExactly` says what it decides.
- `alloc_cache_block` chains every index block under the bucket of number 0, while `search_cache_block` looks under the
  bucket of the number asked for. `IndexBlocksAreLost` says which blocks can be found, and
  `LostBlock` builds an image in which one is not. The builder never needs to find one,
  because the block remembered is always the right one; this is part of what `AppendBlock` keeps.
- `spipeclose` and `spipeisclosed` ignore the result of `sem_wait`. `UnnoticedBreaksClose` shows what follows when it
  fails; `Balanced` says when the semaphore still counts right, and `LateOnly` and `TakesInExactly` say which bytes a closed
  pipe can still take in, for all runs. The other theorems about the pipe assume that a failed wait does not go unnoticed.
  A failed wait in a read or write is noticed and is part of the model.
- A string value that holds a newline, or whose line is too long for the buffer of 1024 bytes, or whose name does not start
  with a capital letter, is written but not read back.
  `RoundTrip` gives the exact condition.

## Model

| member | source | states |
|---|---|---|
| `KconfigExpr.Transform` | ucore/package/config/expr.c:641-776 | the weight of the result does not exceed that of the argument, which is what makes the recursion end although a De Morgan step enlarges the tree |
| `KconfigExpr.TransformKeepsValue` | ucore/package/config/expr.c:641-776 | the transformed expression has the same tristate value under every assignment in which boolean symbols are never m |
| `KconfigExpr.TransformIsNormal` | ucore/package/config/expr.c:641-776 | in the result a negation stands only directly above a symbol other than y, m and n, and no boolean symbol is compared with one of these |
| `KconfigExpr.TransformFixesNormal` | ucore/package/config/expr.c:641-776 | an expression in that form is left unchanged |
| `KconfigExpr.TransformIdempotent` | ucore/package/config/expr.c:641-776 | transforming twice is transforming once, and exactly the expressions in that form stay unchanged |
| `KconfigExpr.EliminateYnKeepsValue` | ucore/package/config/expr.c:236-320 | folding y and n keeps the value under every assignment |
| `KconfigExpr.EliminateYnFolds` | ucore/package/config/expr.c:236-320 | no operand y or n is left; the tree gets smaller exactly when there was one, and is unchanged otherwise |
| `KconfigEq.EliminateUnder` | ucore/package/config/expr.c:135-167 | neither remainder is larger than its argument, the measure of the three-way recursion |
| `KconfigEq.EqSound` | ucore/package/config/expr.c:194-234 | if expr_eq answers 1, the two expressions have the same value under every assignment |
| `KconfigEq.EliminateEqSound` | ucore/package/config/expr.c:169-192 | if the two remainders have the same value, so have the two expressions |
| `KconfigEq.EliminateUnderFactors` | ucore/package/config/expr.c:135-167 | both sides factor as a common part combined with what is left of them, for all assignments |
| `KconfigEq.EliminateLeafFactors` | ucore/package/config/expr.c:135-167 | the same for a pair of operands |
| `KconfigEq.EliminateCancels` | ucore/package/config/expr.c:135-167 | on chains of literals exactly the common operands, counted with multiplicity, are cancelled |
| `KconfigEq.EqComplete` | ucore/package/config/expr.c:194-234 | expr_eq recognises any reordering and regrouping of a chain of literals |
| `KconfigForms.EqExactly` | ucore/package/config/expr.c:194-234 | expr_eq answers 1 if and only if the two expressions are the same up to order, grouping and repetition in every chain at every depth, for expressions without y and n below an operator |
| `KconfigForms.EqIsNotTransitive` | ucore/package/config/expr.c:194-234 | with n as an operand that fails: three expressions of which expr_eq identifies the first with the second and the second with the third, but not the first with the third |
| `KconfigEq.ExtractFactors` | ucore/package/config/expr.c:853-880 | each extraction step keeps both values as common part combined with remainder |
| `KconfigEq.ExtractEqFactors` | ucore/package/config/expr.c:831-851 | the extracted part and the two remainders give back both values |
| `KconfigDups.Join` | ucore/package/config/expr.c:351-507 | a joined operand is smaller than the two operands it replaces |
| `KconfigClean.JoinExactly` | ucore/package/config/expr.c:351-507 | two operands are joined if and only if expr_eq takes them for the same, or they are one of the listed pairs of tests on one symbol in either order |
| `KconfigDups.JoinKeepsValue` | ucore/package/config/expr.c:351-507 | joining two operands of a disjunction or conjunction keeps the value of the pair under every assignment in which boolean symbols are never m |
| `KconfigPasses.Dups1KeepsValue` | ucore/package/config/expr.c:509-559 | the pass that joins operands keeps the value of the whole chain |
| `KconfigPasses.Dups1Progress` | ucore/package/config/expr.c:509-559 | when it counts a change, the result is smaller or has a constant to fold; when it counts none, the tree is unchanged |
| `KconfigPasses.DropContradictedExactly` | ucore/package/config/expr.c:561-615 | replacing a contradicted operand keeps the value if and only if that value is not m |
| `KconfigPasses.Dups2Refines` | ucore/package/config/expr.c:561-615 | the second pass keeps every value other than m |
| `KconfigPasses.Dups2Progress` | ucore/package/config/expr.c:561-615 | when the second pass counts a change, the result is smaller or has a constant to fold; when it counts none, the tree is unchanged |
| `KconfigDedup.RoundShrinks` | ucore/package/config/expr.c:617-639 | every round with a positive count strictly shrinks the tree after constants are folded |
| `KconfigDedup.RoundRefines` | ucore/package/config/expr.c:617-639 | a round keeps every value other than m |
| `KconfigClean.EliminateDups` | ucore/package/config/expr.c:617-639 | the loop ends and keeps every value other than m; in the result no two operands of any chain join or contradict each other, which is said of the pairs themselves |
| `KconfigClean.ContradictsExactly` | ucore/package/config/expr.c:561-615 | an operand is dropped if and only if the opposites of all its parts are among the parts of the other, for operands in negation normal form without y and n |
| `KconfigClean.DedupIsClean` | ucore/package/config/expr.c:617-639 | the result of the simplification has no pair of operands left that says the same thing twice or contradicts itself |
| `KconfigDedup.DedupRefines` | ucore/package/config/expr.c:617-639 | the whole simplification keeps every value other than m |
| `KconfigDedup.DedupKeepsDefinite` | ucore/package/config/expr.c:617-639 | it keeps the value whenever every leaf is y or n |
| `KconfigDedup.DedupExactWithoutComplements` | ucore/package/config/expr.c:617-639 | a run in which the second pass replaces nothing keeps the value under every assignment in which boolean symbols are never m |
| `KconfigDedup.QuietIsSettled` | ucore/package/config/expr.c:617-639 | when both passes count nothing, no two operands of any chain can be joined or dropped |
| `KconfigDedup.DedupIdempotent` | ucore/package/config/expr.c:617-639 | simplifying twice is simplifying once |
| `KconfigExact.DedupKeepsSingle` | ucore/package/config/expr.c:617-639 | a chain of one operator without nested chains keeps its value, under every assignment in which boolean symbols are never m |
| `KconfigExact.Dups2Decides` | ucore/package/config/expr.c:561-615 | where nothing inside an operand of the chain is replaced, anything the second pass replaces leaves the whole chain with the value of the constant that decides it |
| `KconfigExact.DedupExactly` | ucore/package/config/expr.c:617-639 | where AND and OR alternate at most once, the simplification keeps the value if and only if the value is not m or no round replaces an operand |
| `KconfigExact.ComplementsVisible` | ucore/package/config/expr.c:561-615 | at any depth: where no operands join and nothing below the top is contradicted, some round replaces an operand if and only if two operands at the top of the given expression contradict each other |
| `KconfigExact.DedupExactlyWhen` | ucore/package/config/expr.c:617-639 | for these expressions, of any depth, the value is kept if and only if it is not m or no two operands at the top contradict each other, and what is lost becomes the constant that decides the chain |
| `KconfigLoss.EvalMonotone` | ucore/package/config/expr.c:943-982 | a value y or n does not change when symbols that are m, and are compared with nothing, are set to y or n |
| `KconfigLoss.LostIsDecided` | ucore/package/config/expr.c:617-639 | for every expression and assignment: m is lost only to the one value that setting symbols that are m to y or n can lead to |
| `KconfigLoss.UndecidedIsKept` | ucore/package/config/expr.c:617-639 | for every expression: if setting symbols that are m can lead to y and can lead to n, the value m is kept |
| `KconfigExact.DedupLosesMod` | ucore/package/config/expr.c:561-639 | (n or a) and not a is m when a is m, and is simplified to n: the value m is not kept in general |
| `Malloc.RingAscends` | ucore/src/libs-user-ucore/malloc.c:121-148 | from base on, each block of the ring ends at or before the next one starts |
| `Malloc.RingDistinct` | ucore/src/libs-user-ucore/malloc.c:121-148 | the addresses on the ring ascend, so each free block is on it once |
| `Malloc.SlotUnique` | ucore/src/libs-user-ucore/malloc.c:125-129 | for a block that is being freed there is exactly one place on the ring |
| `Malloc.FreedIsRing` | ucore/src/libs-user-ucore/malloc.c:121-148 | freeing keeps one ring through base, ascending with one wrap, of disjoint blocks of which no two touching ones have the same type |
| `Malloc.FreedUnits` | ucore/src/libs-user-ucore/malloc.c:121-148 | joining with the neighbours neither loses nor invents units, for each memory type |
| `Malloc.FreedCovers` | ucore/src/libs-user-ucore/malloc.c:121-148 | exactly the addresses of the freed block become free |
| `Malloc.TakenIsRing` | ucore/src/libs-user-ucore/malloc.c:97-110 | cutting a block off, or taking it whole, keeps the ring |
| `Malloc.TakenUnits` | ucore/src/libs-user-ucore/malloc.c:97-110 | the units taken are the ones missing from the ring |
| `Malloc.TakenCovers` | ucore/src/libs-user-ucore/malloc.c:97-110 | exactly the addresses handed out are no longer free |
| `MallocHeap.FreeKeepsState` | ucore/src/libs-user-ucore/malloc.c:121-148 | ring, separateness of free and allocated blocks, and units per type are kept by free |
| `MallocHeap.TakeKeepsState` | ucore/src/libs-user-ucore/malloc.c:97-110 | the same for an allocation |
| `MallocHeap.CoreKeepsState` | ucore/src/libs-user-ucore/malloc.c:45-76 | the same for a chunk obtained from the system, whose units are added to those obtained |
| `MallocHeap.Heap.FindSlot` | ucore/src/libs-user-ucore/malloc.c:125-129 | the search loop ends at the one place of the block |
| `MallocHeap.Heap.FreeLocked` | ucore/src/libs-user-ucore/malloc.c:121-148 | the pointer updates in place produce the ring with the block in it, joined with touching neighbours of its type |
| `MallocHeap.Heap.Free` | ucore/src/libs-user-ucore/malloc.c:168-173 | the block is no longer allocated, exactly its addresses become free, all other allocations keep their headers |
| `MallocHeap.Heap.MoreCore` | ucore/src/libs-user-ucore/malloc.c:45-76 | the chunk joins the ring and the units obtained grow by its size |
| `MallocHeap.Heap.Take` | ucore/src/libs-user-ucore/malloc.c:97-110 | the pointer updates in place cut the front off a block or unlink it |
| `MallocHeap.Heap.Malloc` | ucore/src/libs-user-ucore/malloc.c:79-119 | the kernel is asked only when no free block of the type is large enough, and at most twice; otherwise the block returned lies in the first free block that fits, going round the ring from freep; the units obtained of the requested type grow by exactly those of the chunks granted and of the other type by none; NULL is returned exactly after a refusal; otherwise the block is new, of the requested type and exactly as many units as the request needs, apart from all others, and all invariants hold |
| `MallocHeap.Heap.Search` | ucore/src/libs-user-ucore/malloc.c:96-118 | the search ends at the first block behind freep that fits; the kernel is asked only when none does, and the chunks granted are accounted for |
| `SfsMap.AppendDirect` | ucore/src/ht-mksfs/mksfs.c:422-424 | appending to the direct pointers makes exactly the next logical block point at the new block |
| `SfsMap.AppendSingle` | ucore/src/ht-mksfs/mksfs.c:425-430 | the same through the indirect block |
| `SfsMap.AppendLeaf` | ucore/src/ht-mksfs/mksfs.c:431-438 | the same through the double indirect blocks |
| `SfsMap.LeafIsWarm` | ucore/src/ht-mksfs/mksfs.c:399-412 | the index block needed is the one remembered, so that the lookup is not needed |
| `SfsDisk.IndexBlocksAreLost` | ucore/src/ht-mksfs/mksfs.c:190-207 | an index block can be found by its number only if that number falls into bucket 0, because all are chained there |
| `Sfs.LostBlock` | ucore/src/ht-mksfs/mksfs.c:190-207 | an image of 100 blocks built for one file of thirteen blocks is in a state of the builder, with all its invariants, in which search_cache_block does not find the index block of that file |
| `Sfs.FreeBitsCount` | ucore/src/ht-mksfs/mksfs.c:330-352 | the bits set in the free map blocks of the finished image, counted, are as many as the unused blocks that its super block records |
| `SfsDisk.AllWritten` | ucore/src/ht-mksfs/mksfs.c:330-366 | free map, super block, cached blocks and earlier writes together are the blocks 0 to next_ino - 1, once each |
| `SfsLinks.NewDir` | ucore/src/ht-mksfs/mksfs.c:209-237 | a new directory keeps the invariants over the still-open path: link counts, one entry for each closed directory and none for each open one |
| `SfsLinks.NewFile` | ucore/src/ht-mksfs/mksfs.c:483-490 | a new file keeps them |
| `SfsLinks.NewEntry` | ucore/src/ht-mksfs/mksfs.c:461-469 | a new entry keeps them, counts one link more for the named inode, and fills the next slot |
| `SfsLinks.NewText` | ucore/src/ht-mksfs/mksfs.c:547-573 | copying another part of a file keeps them |
| `SfsLinks.FinishedCounts` | ucore/src/ht-mksfs/mksfs.c:452-490 | when only the root is open, a directory has 2 + number of subdirectories links, anything else as many as entries name it |
| `SfsNeed.IndexMore` | ucore/src/ht-mksfs/mksfs.c:414-441 | block number n of a file makes exactly that many new index blocks necessary: none, one, or two at the first double indirect block |
| `SfsNeed.NeedMore` | ucore/src/ht-mksfs/mksfs.c:499-545 | what a directory needs grows with each entry by the object, if it is new, the entry, and the index blocks that become necessary |
| `SfsNeed.StorableMeans` | ucore/src/ht-mksfs/mksfs.c:499-573 | a tree can be stored if and only if it holds no name over 255 characters, no link text that is empty or as long as a block, no directory met before, and no file or directory of more than 32768 blocks; otherwise there is such a reason |
| `Sfs.Sfs.AllocIno` | ucore/src/ht-mksfs/mksfs.c:181-188 | the number is new to everything in use; it is refused exactly when all numbers are used up, and Full is the reason given |
| `Sfs.Sfs.AllocCacheBlock` | ucore/src/ht-mksfs/mksfs.c:190-198 | a cached index block of zeros under a fresh number, chained once |
| `Sfs.Sfs.SearchCacheBlock` | ucore/src/ht-mksfs/mksfs.c:200-207 | finds the block exactly when it is chained under its number |
| `Sfs.Sfs.UpdateCache` | ucore/src/ht-mksfs/mksfs.c:399-412 | a new block is provided for number 0, the remembered block is kept if it is the right one, and only otherwise the lookup is used |
| `Sfs.Sfs.AppendBlock` | ucore/src/ht-mksfs/mksfs.c:414-441 | the list of blocks of the file grows by exactly the given block and those of all other files stay; exactly the index blocks that become necessary are taken; the lookup by number is never used; it fails only when the file has 32768 blocks already, or no number is left and the index blocks needed exceed those left |
| `Sfs.Sfs.AppendDeep` | ucore/src/ht-mksfs/mksfs.c:431-438 | the same through the double indirect blocks; the only failure is a lack of numbers |
| `Sfs.Sfs.AllocInode` | ucore/src/ht-mksfs/mksfs.c:209-220 | a fresh inode of the given kind, chained under its host number |
| `Sfs.Sfs.SearchInode` | ucore/src/ht-mksfs/mksfs.c:222-229 | finds the inode of a host number exactly when there is one |
| `Sfs.Sfs.AddEntry` | ucore/src/ht-mksfs/mksfs.c:460-469 | directory and named inode change as the entry demands, all invariants hold |
| `Sfs.Sfs.AddFile` | ucore/src/ht-mksfs/mksfs.c:482-490 | a host file met again is linked, not copied; one met first is copied whole; blocks taken and objects known change by exactly what that needs, or the refusal has a cause in the file or in the space left |
| `Sfs.Sfs.AddLink` | ucore/src/ht-mksfs/mksfs.c:492-497 | a symbolic link is stored and entered; it is refused only for a text that is empty or as long as a block, or for lack of space |
| `Sfs.Sfs.InitDir` | ucore/src/ht-mksfs/mksfs.c:231-237 | one link for itself and one for its parent |
| `Sfs.Sfs.AddDir` | ucore/src/ht-mksfs/mksfs.c:471-480 | the whole subtree is entered, in the order of the host, and the directory is closed again; it is refused only for a host number met before, for something below it, or for lack of space |
| `Sfs.Sfs.OpenDir` | ucore/src/ht-mksfs/mksfs.c:499-545 | all entries of a host directory are entered, one after the other; exactly the blocks that Need counts are taken; otherwise something in the directory cannot be stored, for the reason given, or the blocks do not suffice |
| `Sfs.Sfs.OpenFile` | ucore/src/ht-mksfs/mksfs.c:547-561 | the blocks of the file put together are its text |
| `Sfs.FirstSfs` | ucore/src/ht-mksfs/mksfs.c:239-271 | the state after create_sfs satisfies all invariants: only the root is there, open and without entries, and the first number to hand out is the one behind the free map |
| `Sfs.Sfs.Close` | ucore/src/ht-mksfs/mksfs.c:329-366 | exactly the blocks 0 to next_ino - 1 are written, each once, each holding what it should; all invariants hold |
| `Sfs.Sfs.FreemapBuffer` | ucore/src/ht-mksfs/mksfs.c:334-350 | bit b of the free map is set if and only if next_ino <= b < ninos |
| `Sfs.CreateSfs` | ucore/src/ht-mksfs/mksfs.c:239-271 | fails exactly when the image is too small for its free map |
| `Sfs.CreateImg` | ucore/src/ht-mksfs/mksfs.c:575-590 | for every host tree: the build succeeds if and only if nothing in the tree is unstorable and the blocks it needs fit behind the free map, and takes exactly these; then the image is complete: blocks 0 to next_ino - 1 hold, each written once, the super block, the free map with as many bits set as the super block counts unused, index blocks, inodes, entries and texts that were meant for them; entries are those of the host, link counts, slots and pointers agree with them, and no host object other than a symbolic link has two inodes; otherwise the reason given names something in the tree that cannot be stored, or the need exceeds the space |
| `MenuTree.SpellsEnd` | ucore/package/config/menu.c:337-346 | changing the next pointer of the last sibling moves the end of the list and nothing else |
| `MenuTree.Reparent` | ucore/package/config/menu.c:338-342 | giving the first sibling another parent splits the list there |
| `MenuSteps.AdoptOne` | ucore/package/config/menu.c:286-306 | one more adopted sibling keeps the preorder |
| `MenuSteps.LinkedIn` | ucore/package/config/menu.c:337-346 | the children of a node without a prompt, linked in behind it, give the same preorder |
| `Menu.Menus.FinalizeKids` | ucore/package/config/menu.c:279-280 | the children become what the two passes of MenuSpec make of them; every node below is finalized once |
| `Menu.Menus.Adopt` | ucore/package/config/menu.c:281-312 | every sibling taken over passed the dependency test and the sibling after the last of them, if any, did not; those taken over hang below the node, each finished as menu_finalize says, and the rest follows it |
| `Menu.Menus.TakeOver` | ucore/package/config/menu.c:307-311 | the three pointer updates move the adopted siblings below the node |
| `Menu.Menus.Flatten` | ucore/package/config/menu.c:313-347 | a child with a prompt keeps its children, the children of one without come up behind it, and nothing else moves; the preorder is unchanged and afterwards no child without a prompt has children |
| `Menu.Menus.Splice` | ucore/package/config/menu.c:337-346 | the children move up behind their parent |
| `Menu.Menus.Finalize` | ucore/package/config/menu.c:228-347 | the node ends up with what it takes over, lifted out of menus without a prompt; it takes over siblings only if it has a symbol and no children, and then all up to the first that fails the test; preorder unchanged, all parent pointers right, each node of the subtree finalized exactly once |
| `Menu.Menus.Walk` | ucore/package/config/confdata.c:433-511 | the walk without a stack visits exactly the preorder of the tree, once each, and ends |
| `Menu.Menus.FinalizeAndWalk` | ucore/package/config/menu.c:228-347 | for every tree and all answers of the tests the pointer updates, in whatever order they come, do what two passes do one after the other: entries are taken over, then menus without a prompt dissolve; each node is finalized exactly once and the walk afterwards meets the entries in their original order |
| `MenuSpec.DissolvedMoves` | ucore/package/config/menu.c:337-346 | one dissolving step keeps children with a prompt as they are, brings up the children of the others, and leaves nothing else |
| `MenuSpec.LiftedAbove` | ucore/package/config/menu.c:313-347 | dissolving leaves of the menus around an entry exactly those with a prompt, in their order |
| `MenuSpec.GrownAbove` | ucore/package/config/menu.c:279-312 | of the menus around an entry after taking over, those that had entries before are exactly the ones it was in before |
| `MenuSpec.GrownFits` | ucore/package/config/menu.c:281-312 | everywhere in the tree: a node that had no children before and has some now has a symbol and passed the test for each of them, and one with a symbol failed it for the entry that comes next, be that in its own list or in one further up |
| `MenuSpec.FinalKeeps` | ucore/package/config/menu.c:228-347 | of the menus an entry is in at the end, those that were menus before are exactly the ones with a prompt that it was in before |
| `MenuSpec.FinalGains` | ucore/package/config/menu.c:281-347 | any other menu an entry is in at the end has a prompt and a symbol, had no entries, and passed the test for that entry or for one the entry is in |
| `Sieve.HeadsArePrimes` | ucore/src/user-ucore/primer.c:57-85 | the first numbers of the levels of the sequential sieve are the first primes, in order |
| `Sieve.LevelByPrimes` | ucore/src/user-ucore/primer.c:57-85 | a number is left at level k exactly when none of the first k primes divides it |
| `Primer.FeedKeeps` | ucore/src/user-ucore/primer.c:108-112 | the feeding loop keeps the invariant of the pipeline |
| `Primer.PassKeeps` | ucore/src/user-ucore/primer.c:37-55 | a number passed on arrives in the next slot and nowhere else |
| `Primer.StepKeeps` | ucore/src/user-ucore/primer.c:57-85 | every step of every stage keeps the invariant of the pipeline |
| `Primer.RunKeeps` | ucore/src/user-ucore/primer.c:21-112 | the invariant holds after every sequence of moves |
| `Primer.GotIsLevel` | ucore/src/user-ucore/primer.c:21-85 | each stage has taken, in order and without a gap, what the sequential sieve has at its level |
| `Primer.StagePrime` | ucore/src/user-ucore/primer.c:57-85 | in every run the number stage k prints is the prime with exactly k primes below it, and what it has read is, ascending and complete, the numbers none of those primes divides |
| `Primer.PrintedPrimes` | ucore/src/user-ucore/primer.c:57-85 | in every run the numbers printed by stages 0 to k are the first k + 1 primes |
| `Primer.ClosedSlot` | ucore/src/user-ucore/primer.c:80-85 | a slot holding -1 means that its stage has finished |
| `Primer.AllLaterFinished` | ucore/src/user-ucore/primer.c:80-112 | once the feeder has stopped all stages have finished, and once any stage has finished so have all stages after it |
| `Primer.StopsWhenFull` | ucore/src/user-ucore/primer.c:57-112 | in every run in which no fork fails a stage stops only when all stages asked for are there, and once the feeder has stopped they have printed the first total primes |
| `Spipe.MutexKept` | ucore/src/libs-user-ucore/spipe.c:39-112 | at most one call is inside, and the semaphore is 1 exactly when none is |
| `Spipe.RingKept` | ucore/src/libs-user-ucore/spipe.c:55-60 | moving one byte in or out keeps the ring in step with the history |
| `Spipe.StepKeeps` | ucore/src/libs-user-ucore/spipe.c:39-126 | every step keeps all invariants |
| `Spipe.RunKeeps` | ucore/src/libs-user-ucore/spipe.c:39-138 | they hold in every run in which no failed sem_wait goes unnoticed |
| `SpipeFifo.Fifo` | ucore/src/libs-user-ucore/spipe.c:39-90 | the bytes accepted are the bytes delivered followed by the bytes in the ring, at most as many as the buffer holds |
| `SpipeFifo.EachInOrder` | ucore/src/libs-user-ucore/spipe.c:39-90 | each call has moved exactly the bytes it reports, in order |
| `SpipeFifo.Conserved` | ucore/src/libs-user-ucore/spipe.c:39-90 | the counts of all writes add up to wpos, those of all reads to rpos |
| `SpipeFifo.RefinesQueue` | ucore/src/libs-user-ucore/spipe.c:55-85 | each move leaves the queue as it is, adds the next byte of a write at the end, or gives the first byte to a read |
| `SpipeFifo.LateOnly` | ucore/src/libs-user-ucore/spipe.c:67-126 | in every run, failed waits included: after the pipe is closed the only bytes still accepted come from writes that had passed the test for a closed pipe by then |
| `SpipeLate.LateIsLoose` | ucore/src/libs-user-ucore/spipe.c:102-126 | when a write is past the test on a closed pipe, the semaphore has been given back once too often or a call without it is about to give it back |
| `SpipeLate.TakesInExactly` | ucore/src/libs-user-ucore/spipe.c:67-126 | some continuation of the run takes a byte into the closed pipe if and only if there is such a write, be the ring full or not |
| `SpipeFifo.NoneAfterClose` | ucore/src/libs-user-ucore/spipe.c:92-126 | if no failed wait went unnoticed before the close, nothing more is accepted whatever happens after it |
| `SpipeFifo.ShortReturns` | ucore/src/libs-user-ucore/spipe.c:39-90 | a read of n > 0 returns nothing only when the pipe is closed and drained or its handle was closed; a write returns less only when the pipe is closed |
| `SpipeFifo.PendingReadable` | ucore/src/libs-user-ucore/spipe.c:39-65 | with nobody inside, a read through an open handle returns the next pending bytes, closed pipe or not |
| `SpipeCodes.CloseAnswers` | ucore/src/libs-user-ucore/spipe.c:92-138 | in every run, failed waits included: of all calls of spipeclose on a handle at most one answers 0, and one does exactly when the handle was closed that way; the others answer -1 and the handle is closed; whoever is told by spipeisclosed that the pipe is closed is told the truth |
| `SpipeCodes.ClosedIsTold` | ucore/src/libs-user-ucore/spipe.c:114-138 | in every run a spipeisclosed that begins on a closed pipe answers 1 |
| `SpipeFifo.OnlyTheHolder` | ucore/src/libs-user-ucore/spipe.c:39-126 | the shared state changes only under the semaphore, and only through a handle that is still open |
| `SpipeFifo.Balanced` | ucore/src/libs-user-ucore/spipe.c:102-138 | in every run, failed waits included, the semaphore counts right if and only if no spipeclose or spipeisclosed has come back after a failed sem_wait |
| `SpipeFifo.UnnoticedBreaksClose` | ucore/src/libs-user-ucore/spipe.c:102-112 | a spipeclose that ignores a failed sem_wait lets a byte into a closed pipe |
| `SymbolDeps.NoReturn` | ucore/package/config/symbol.c:789-828 | along dependencies the order in which symbols are left only goes down |
| `SymbolDeps.NoCycle` | ucore/package/config/symbol.c:789-828 | no symbol in that order lies on a cycle |
| `SymbolDeps.LeftWarning` | ucore/package/config/symbol.c:818-827 | the names printed while unwinding form a chain of dependencies, closed when the first name is met again |
| `SymbolDeps.Checker.CheckExpr` | ucore/package/config/symbol.c:759-787 | all symbols of the expression are checked, or the warning being printed starts with a symbol under check |
| `SymbolDeps.Checker.CheckProps` | ucore/package/config/symbol.c:801-817 | the same for all expressions of a symbol |
| `SymbolDeps.Checker.CheckDeps` | ucore/package/config/symbol.c:789-828 | a symbol is entered at most once; without a warning everything it depends on has been left before it |
| `SymbolDeps.Checker.CheckAll` | ucore/package/config/zconf.tab.c:2134-2136 | each symbol is entered at most once, every warning is a real cycle, and without a warning no symbol of the table lies on a cycle |
| `SymbolSpec.DefaultIsFirst` | ucore/package/config/symbol.c:120-130 | the default found by the loop is the first visible one |
| `SymbolSpec.EvalAgrees` | ucore/package/config/expr.c:943-982 | the value of an expression depends only on the symbols it names |
| `SymbolSpec.SolvedLater` | ucore/package/config/symbol.c:262-361 | what holds of a finished symbol stays true while others are calculated |
| `SymbolValues.InBounds` | ucore/package/config/symbol.c:306-325 | the computed value lies between selection and the larger of selection and visibility |
| `SymbolValues.Equations` | ucore/package/config/symbol.c:193-221 | if no symbol was asked for while it was being calculated, visibility, selection and value of every calculated symbol that is neither choice nor choice value solve the defining equations; only tristate symbols begun before modules_val took its value are excepted |
| `SymbolMeaning.Meaning` | ucore/package/config/symbol.c:193-325 | the same in other words: visibility is the smallest allowed value that no prompt exceeds, selection the smallest that the selecting expression does not exceed, and the value the smallest allowed one that reaches the selection and reaches the user value, or else the first visible default, or the visibility; if neither visible nor selected it is the smallest allowed value that reaches that default |
| `SymbolValues.Symbols.CalcExpr` | ucore/package/config/expr.c:943-982 | the value is that of the expression under the final values of the symbols it names |
| `SymbolValues.Symbols.AnyPrompt` | ucore/package/config/symbol.c:198-203 | the best visibility of all prompts |
| `SymbolValues.Symbols.CalcVisibility` | ucore/package/config/symbol.c:193-221 | visibility and selection are what the expressions say, never m for a symbol that cannot be m |
| `SymbolValues.Symbols.FromDefault` | ucore/package/config/symbol.c:120-130 | the value of the first visible default |
| `SymbolValues.Symbols.NewValue` | ucore/package/config/symbol.c:300-325 | for a symbol outside choices the value from user, default, visibility and selection that `SymbolMeaning.Meaning` characterises; of the fully visible values of a choice exactly the one picked is y and the others are n; a boolean never becomes m |
| `SymbolValues.Symbols.FindChoice` | ucore/package/config/symbol.c:223-257 | if no symbol was asked for while it was being calculated, the pick is the first of user choice, visible defaults and values, in this order, that has a visible prompt, and none only if all of them are hidden |
| `SymbolValues.Symbols.SettleOn` | ucore/package/config/symbol.c:350-352 | a choice that becomes y remembers that pick |
| `SymbolValues.Symbols.CalcValue` | ucore/package/config/symbol.c:262-361 | each symbol is calculated once; a symbol not under calculation is finished by the call, whatever was met on the way; a boolean is never m; rev_dep <= value, and value <= max(visible, rev_dep) when visible or selected, unless the symbol is tristate and was begun before modules_val took its value, which cannot be once the modules symbol has been calculated |
| `SymbolValues.Symbols.constructor` | ucore/package/config/symbol.c:676-684 | symbols as sym_lookup leaves them, zeroed and not yet calculated, satisfy all invariants |
| `SymbolValues.Symbols.ClearAllValid` | ucore/package/config/symbol.c:374-384 | a new round starts with all flags cleared and the modules symbol calculated and finished, whatever the user values have become |
| `SymbolValues.Symbols.SetTristate` | ucore/package/config/symbol.c:425-459 | refused exactly when the value is neither the present one nor within range, and then nothing changes; otherwise the user value is set, a choice value set to y becomes the choice of its owner and marks owner and visible values as set; nothing is calculated again when the value is the present one, and the invariants hold all the same |
| `SymbolValues.SetSticks` | ucore/package/config/symbol.c:406-422 | a value within range is the value the symbol gets, as long as visibility and selection stay |
| `SymbolValues.SameValueIsGood` | ucore/package/config/symbol.c:455-456 | setting a symbol to the value it has leaves all equations solved, so that skipping the calculation is right |
| `SymbolValues.Symbols.Session` | ucore/package/config/symbol.c:262-459 | asking, setting, loading and starting over, in any order and number, keep all invariants |
| `SymbolValues.Configure` | ucore/package/config/symbol.c:262-459 | in every state reachable from the start by these a boolean symbol is never m and all invariants hold |
| `SymbolRewrite.GoodEnv` | ucore/package/config/symbol.c:322-325 | the calculated values are an assignment in which boolean symbols are never m, which is what the theorems about rewriting ask for |
| `SymbolRewrite.TransformKeepsCalculated` | ucore/package/config/expr.c:641-776 | in every such state the transformed expression has the value of the original |
| `ReadersWriters.StepKeeps` | ucore/src/user-ucore/sem_rf.c:57-89 | every step keeps the balance of semaphores, counter and processes |
| `ReadersWriters.RunKeeps` | ucore/src/user-ucore/sem_rf.c:57-89 | it holds in every run, for any number of processes |
| `ReadersWriters.Exclusion` | ucore/src/user-ucore/sem_rf.c:57-89 | while a process writes no other writes, and none is between taking sem_write, or finding it taken by a reader, and giving it back |
| `ReadersWriters.Counted` | ucore/src/user-ucore/sem_rf.c:60-76 | the counter is the number of readers between increment and decrement |
| `ReadersWriters.Rest` | ucore/src/user-ucore/sem_rf.c:32-41 | whenever nobody is inside both semaphores are 1 and the counter is 0 |
| `ReadersWriters.NoDeadlock` | ucore/src/user-ucore/sem_rf.c:57-89 | as long as some process has not gone, some process can take a step |
| `ReadersWriters.MayJoin` | ucore/src/user-ucore/sem_rf.c:60-76 | readers do not keep each other out: whenever sem_count is free and nobody writes, one more reader can come in to read without anybody else moving |
| `ReadersWriters.Together` | ucore/src/user-ucore/sem_rf.c:60-76 | any number of readers can read at the same time |
| `ConfString.UnescapeEscape` | ucore/package/config/confdata.c:243-249 | deleting the escapes undoes putting them in |
| `ConfString.NoQuote` | ucore/package/config/confdata.c:243-253 | no piece of an escaped text has a closing quote |
| `ConfString.RoundTrip` | ucore/package/config/confdata.c:149-264 | for every name that can be written, reading back a written string gives the same string if and only if the name starts with a capital letter, the string holds no newline and the line up to the closing quote fits into the buffer; otherwise the line yields no value |
| `ConfFile.WriteString` | ucore/package/config/confdata.c:470-484 | the loop writes the name and the escaped text |
| `ConfFile.MoveLeft` | ucore/package/config/confdata.c:248 | the characters behind the backslash move one to the left |
| `ConfFile.Unescape` | ucore/package/config/confdata.c:243-253 | the buffer holds the text without escapes up to the closing quote, and what lies before it is untouched; it fails exactly when there is no closing quote |
| `ConfFile.Gets` | ucore/package/config/confdata.c:149 | the buffer holds the first line, or as much of it as fits |
| `ConfFile.CutLine` | ucore/package/config/confdata.c:192-197 | newline and carriage return are cut off |
| `ConfFile.ReadLine` | ucore/package/config/confdata.c:149-264 | the buffer edited in place yields what the specification of a line says |
| `ConfFile.WriteThenRead` | ucore/package/config/confdata.c:470-484 | writing and reading with the real buffer gives the string back exactly under the condition above |

## Left out

- Kconfig expressions: nodes of kind E_CHOICE, E_RANGE and E_LIST, `expr_trans_compare`, `expr_trans_bool`, releasing and printing expressions. Trees are values; sharing between two trees is not modelled beyond the two pointers into one tree.
- Kconfig files: the parser and its tables, the choice and select bookkeeping of `menu_finalize`, and everything that prints.
- Menu.Menus.Finalize: the dependency tests are an arbitrary predicate on pairs of nodes, each pair being tested at most once; nodes are numbers in a map, not memory.
- SymbolValues.Symbols.CalcChoice: a choice none of whose values is visible counts as asked for too early, so that nothing is said of the round from then on.
- KconfigForms.EqExactly: for expressions without y and n below an operator, where `expr_eq` folds nothing; with them it is not an equivalence.
- KconfigClean.ContradictsExactly: for the same expressions, in the form in which menu_finalize passes them.
- SymbolValues.Symbols.CalcValue: the texts of int, hex and string symbols are given, not calculated, and the comparison of range bounds may come out either way; the default and the user choice of a choice are taken to name choice values.
- SymbolDeps.Checker.CheckAll: the table is a list of symbols; reading it out of the hash chains, and `sym_lookup` and `sym_find`, are not modelled.
- MallocHeap.Heap.Malloc: what the system answers is a parameter: a chunk of at least the units asked for, above the base, owned by nobody and not ending where a free block of its type starts. The lock around each call and the wrap-around of sizes near the top of size_t are not modelled.
- Sfs.CreateImg: the host is a tree of values; host errors, the byte layout of blocks, the 16-bit width of link counts, and the variant with byte swapping in mksfs_be.c are not modelled. Bits of the free map are numbered across blocks.
- Primer.StagePrime: mathematical integers; liveness of the waiting loops is not stated. The lock around each access makes it atomic and is itself not modelled.
- SpipeFifo.Fifo: positions are mathematical integers; setting the pipe up and its error paths are not modelled. The pipe is a value that moves transform, not an object updated in place.
- KconfigDedup.DedupExactWithoutComplements: one way, with the number of replacements in the run as its condition; exact conditions on the expression are those of `DedupExactlyWhen`.
- KconfigExact.DedupExactly: for expressions in which AND and OR alternate at most once. Beyond these and those of `DedupExactlyWhen`, what a replacement inside loses may or may not show outside, depending on the values around it and on what later rounds join; there only `LostIsDecided` and `UndecidedIsKept` are proved.
- KconfigExact.ComplementsVisible: for expressions whose operands do not join and in which nothing below the top is contradicted; joins can make a contradiction visible, or remove it, only in a later round.
- KconfigExact.DedupExactlyWhen: for the same expressions.
- SymbolValues.Symbols.SetTristate: what a choice value that is marked as set, but never got a value from the user, counts as is left open; the flags that tell the front ends what to redraw are not modelled.
- ReadersWriters.Exclusion: the program ignores the results of `sem_wait`; in the model every wait succeeds in the end.
- ReadersWriters.NoDeadlock: fairness is not stated, so that a process may wait forever while others move.
- ConfFile.ReadLine: only lines that assign to a symbol of type string, in a file without NUL characters; comments, other types and unknown symbols are not modelled.
- The kernel, device drivers, boot code, other user programs and the graphical front ends of the configuration tool.
