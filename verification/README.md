# Verified models of the coursework algorithms

A Dafny model of the algorithmic cores of this repository, with proofs of what each of them is for.
`dafny verify dfyconfig.toml` checks everything.

| files | what they model |
|---|---|
| `TreeZipper`, `Rotations`, `RedBlackTree` | the parent-pointer red-black tree, on nodes in memory |
| `SourceLanguage`, `ThreeAddress`, `Realisation`, `Translator`, `WholeProgram` | the C-- source language, three-address code, and the translation between them |
| `Rewriting`, `CleanUp`, `Compiler` | the control-flow passes over the instruction list, and translation and passes together |
| `ObjectCode`, `ArrayAddress` | MIPS code for straight-line code, and array space and addresses |
| `Matching` | bottleneck bipartite matching |
| `Calculator` | operator-precedence conversion to postfix and evaluation |
| `Threads` | user-level threads |
| `SymbolTable` | the cross-linked scoped symbol table |
| `BufferedIO` | printf and scanf over fixed buffers |
| `HourlyCounts` | the map, combine, sort and reduce job over a log |
| `LetterPool` | the node pool and the list of falling letters |
| `Tunnel` | the Internet checksum and IP-in-IP wrapping |
| `Partitions` | counting ways to put apples on plates |

How the models are built:

* The red-black tree works on objects with the fields `val`, `color`, `lc`, `rc` and `pa`. A ghost tree
  and a ghost context (everything around a position) say what memory holds; `At` ties them to the
  fields, parents included. The same pointer assignments occur at many places of the program; they are
  written once for each kind of rotation, with the colours as parameters. Which keys are where is
  followed through contexts, so every case of insertion and removal has a small lemma of its own.
* The meaning of three-address code is a step function. Two programs are the same (`Same`) if from
  every start they pass through the same states (all variables, remaining input, output) and end alike
  or not at all. A piece of code realises an expression, a condition or a statement (`ExpRuns`,
  `CondRuns`, `StmtRuns`) if it does so at any place of any program whose labels are unique; the
  methods of the translator are specified by that, not by the code they emit.
* Label operands are records shared by instructions. In the passes an instruction holds the address of
  a record and `number` holds the label number in each record, so that a change of a record is a change
  of every instruction that shares it; `View` is the program with the numbers in place.
* In the threads, the symbol table, the pool and the buffers the methods change fields and arrays and
  are tied to a state, a stack of scopes, two lists and a text.

Places where code and intent differ, kept as the code has them:

* A condition with arithmetic or an assignment on top is not translated (`DroppedIf`).
* An operation or a reading as a statement of its own is emitted with a null destination, at which later
  stages crash; such programs are not compiled (`Compile`, `Wanted`).
* A program variable called `t1` shares the frame slot of the first temporary; machine code is right for
  all straight-line code over some operands exactly if no two of them have the same name (`NamesDecide`).
* Two neighbouring labels are merged by changing the label records of the jumps before them only
  (`MergeIsExact`, `LostLoop`, `KeptLoop`); code from the translator never has the jump that would be lost.
* Of two jumps after a return the pass drops the first one only (`ReturnPassIsExact`), and it does not go back
  to what a dropped jump uncovers (`GotoPassIsExact`).
* A hexadecimal number that was printed is not read back (`HexNotReadBack`).
* The log job is right if and only if no line has the address `NO`, the word a reducer starts with
  (`JobCounts`, `JobIsRight`); that address gets no record (`WordAsAddress`).
* The checksum loses what does not fit in 32 bits: it is right if and only if the sum does
  (`RightIfItFits`), and for every buffer of some length if and only if that is at most 131074 bytes
  (`OneByteTooMany`).
* `pthread_exit` leaves the thread it switches to marked runnable, not running (`ExitInv`,
  `RunningUnlessExited`).
* The hash of a name can be the size of the hash table (`HashReachesSize`); the model has one bucket more.

## Model

| member | source | states |
|---|---|---|
| `RedBlackTree.RBT.Insert` | 算法/红黑树 161130118/rbt.cpp:227-278 | Inserting an absent key adds exactly that key; the tree stays ordered, red-black, black-rooted and linked both ways. A present key is accepted at a leaf only, where nothing changes. |
| `RedBlackTree.RBT.InsertBelow` | 算法/红黑树 161130118/rbt.cpp:236-276 | The descent stops at the one place where the key fits. |
| `RedBlackTree.RBT.Attach` | 算法/红黑树 161130118/rbt.cpp:241-267 | A new red leaf below the node found, then repair: exactly one key more, all invariants restored. |
| `RedBlackTree.RBT.InsertFix` | 算法/红黑树 161130118/rbt.cpp:280-290 | From any repairable position the loop ends (going up, or making the sibling red once at the same height) in a balanced tree with the same keys. |
| `RedBlackTree.RBT.RepairOnce` | 算法/红黑树 161130118/rbt.cpp:282-289 | One turn keeps the keys, makes progress in that order and leaves the root black when it ends. |
| `RedBlackTree.RBT.RepairLeft` | 算法/红黑树 161130118/rbt.cpp:292-338 | The three left cases, colour flip, single and double rotation, each lead to a repairable position; the node looked at stays red after a double rotation. |
| `RedBlackTree.RBT.RepairRight` | 算法/红黑树 161130118/rbt.cpp:340-380 | The three right cases, colour flip, single and double rotation, each lead to a repairable position with the same keys. |
| `RedBlackTree.RBT.Flip` | 算法/红黑树 161130118/rbt.cpp:301-306 | Recolouring parent and both children changes nothing else in memory. |
| `RedBlackTree.RBT.Relink` | 算法/红黑树 161130118/rbt.cpp:313-315 | Replacing a node below its parent or at the root: which pointers change and which do not. |
| `RedBlackTree.RBT.LinkRight` | 算法/红黑树 161130118/rbt.cpp:309-318 | The pointer and colour assignments of a right rotation give exactly the rotated cells. |
| `RedBlackTree.RBT.LinkLeft` | 算法/红黑树 161130118/rbt.cpp:371-378 | The same for a left rotation. |
| `RedBlackTree.RBT.LinkLeftRight` | 算法/红黑树 161130118/rbt.cpp:322-336 | The same for a double rotation over the left child. |
| `RedBlackTree.RBT.LinkRightLeft` | 算法/红黑树 161130118/rbt.cpp:357-367 | The same for a double rotation over the right child. |
| `RedBlackTree.RBT.RotateRight` | 算法/红黑树 161130118/rbt.cpp:307-319 | In the whole tree these assignments are a right rotation at that place, parents included. |
| `RedBlackTree.RBT.RotateLeft` | 算法/红黑树 161130118/rbt.cpp:369-379 | The same for a left rotation. |
| `RedBlackTree.RBT.RotateLeftRight` | 算法/红黑树 161130118/rbt.cpp:320-337 | The same for a double rotation over the left child. |
| `RedBlackTree.RBT.RotateRightLeft` | 算法/红黑树 161130118/rbt.cpp:355-368 | The same for a double rotation over the right child. |
| `RedBlackTree.RBT.Remove` | 算法/红黑树 161130118/rbt.cpp:383-417 | Removing a present key removes exactly that key; all invariants hold again, parents included, and no temporary node is left. |
| `RedBlackTree.RBT.Excise` | 算法/红黑树 161130118/rbt.cpp:392-416 | Taking out the node found, or its successor after moving its key, removes exactly the wanted key. |
| `RedBlackTree.RBT.Unlink` | 算法/红黑树 161130118/rbt.cpp:392-408 | A node with at most one child is taken out and that child takes its place. |
| `RedBlackTree.RBT.ExchangeKeys` | 算法/红黑树 161130118/rbt.cpp:411-413 | Overwriting the key of an ancestor is a change of that one key in the tree around the position. |
| `RedBlackTree.RBT.RemoveFix` | 算法/红黑树 161130118/rbt.cpp:440-492 | From one missing black node the tree is balanced again with the same keys; the assertion on a childless parent is in a branch that is never taken, and the temporary node is gone at the end. |
| `RedBlackTree.MissingSibling` | 算法/红黑树 161130118/rbt.cpp:445-451 | The place of a removed black leaf always has a sibling, so its parent is never childless. |
| `RedBlackTree.RBT.HangNil` | 算法/红黑树 161130118/rbt.cpp:453-470 | The temporary node stands in the empty place below the parent, as a leaf. |
| `RedBlackTree.RBT.DropNil` | 算法/红黑树 161130118/rbt.cpp:486-491 | It is a leaf wherever it has got to, and taking it off changes neither keys nor balance. |
| `RedBlackTree.RBT.FixUp` | 算法/红黑树 161130118/rbt.cpp:477-485 | The loop ends in a balanced tree with the same keys; no case dereferences a null pointer. |
| `RedBlackTree.RBT.FixLeft` | 算法/红黑树 161130118/rbt.cpp:494-634 | One of the five cases always applies; each keeps the keys and either repairs the tree or lowers the rank of the position. |
| `RedBlackTree.RBT.FixRight` | 算法/红黑树 161130118/rbt.cpp:636-778 | For a position that is a right child: one of the five mirrored cases always applies; each keeps the keys and either repairs the tree or lowers the rank of the position. |
| `RedBlackTree.RBT.RaiseInnerLeft` | 算法/红黑树 161130118/rbt.cpp:499-524 | Case 5, the inner nephew is red: the shortage is gone. |
| `RedBlackTree.RBT.RaiseInnerRight` | 算法/红黑树 161130118/rbt.cpp:641-666 | Case 5, the inner nephew is red (mirrored): the shortage is gone. |
| `RedBlackTree.RBT.RaiseUnderRedLeft` | 算法/红黑树 161130118/rbt.cpp:526-560 | Case 4, the parent is red: the shortage is gone. |
| `RedBlackTree.RBT.RaiseUnderRedRight` | 算法/红黑树 161130118/rbt.cpp:668-704 | Case 4, the parent is red (mirrored): the shortage is gone. |
| `RedBlackTree.RBT.RaiseOuterLeft` | 算法/红黑树 161130118/rbt.cpp:562-602 | Case 3, the outer nephew is red: the shortage is gone. |
| `RedBlackTree.RBT.RaiseOuterRight` | 算法/红黑树 161130118/rbt.cpp:706-746 | Case 3, the outer nephew is red (mirrored): the shortage is gone. |
| `RedBlackTree.RBT.RaiseRedSiblingLeft` | 算法/红黑树 161130118/rbt.cpp:604-623 | Case 2, the sibling is red: the position gets a red parent, so the next case is the last. |
| `RedBlackTree.RBT.RaiseRedSiblingRight` | 算法/红黑树 161130118/rbt.cpp:748-766 | Case 2, the sibling is red (mirrored): the position gets a red parent, so the next case is the last. |
| `RedBlackTree.RBT.PassUpLeft` | 算法/红黑树 161130118/rbt.cpp:625-633 | Case 1, everything is black: the shortage moves to the parent. |
| `RedBlackTree.RBT.PassUpRight` | 算法/红黑树 161130118/rbt.cpp:768-777 | Case 1, everything is black (mirrored): the shortage moves to the parent. |
| `RedBlackTree.LiftOuter` | 算法/红黑树 161130118/rbt.cpp:307-319 | A single rotation under a black uncle ends with a repairable black node on top. |
| `RedBlackTree.LiftInner` | 算法/红黑树 161130118/rbt.cpp:320-337 | A double rotation leaves a red node under inspection whose sibling is red too. |
| `RedBlackTree.LiftOuterRight` | 算法/红黑树 161130118/rbt.cpp:369-379 | On the right side: a single rotation under a black uncle ends with a repairable black node on top. |
| `RedBlackTree.LiftInnerRight` | 算法/红黑树 161130118/rbt.cpp:355-368 | On the right side: a double rotation leaves a red node under inspection whose sibling is red too. |
| `RedBlackTree.FlipStep` | 算法/红黑树 161130118/rbt.cpp:301-306 | A colour flip moves the inspection two levels up, with the keys kept. |
| `RedBlackTree.DoubleFix` | 算法/红黑树 161130118/rbt.cpp:499-524 | Case 5 on the left side restores the black height whatever the colours of parent and sibling. |
| `RedBlackTree.SingleFix` | 算法/红黑树 161130118/rbt.cpp:526-602 | Cases 4 and 3 on the left side restore the black height. |
| `RedBlackTree.RedSibling` | 算法/红黑树 161130118/rbt.cpp:604-623 | Case 2 on the left side makes the next case the last. |
| `RedBlackTree.BlackSibling` | 算法/红黑树 161130118/rbt.cpp:625-633 | Case 1 on the left side moves the shortage up to the parent. |
| `RedBlackTree.DoubleFixRight` | 算法/红黑树 161130118/rbt.cpp:641-666 | Case 5 on the right side restores the black height whatever the colours of parent and sibling. |
| `RedBlackTree.SingleFixRight` | 算法/红黑树 161130118/rbt.cpp:668-746 | Cases 4 and 3 on the right side restore the black height. |
| `RedBlackTree.RedSiblingRight` | 算法/红黑树 161130118/rbt.cpp:748-766 | Case 2 on the right side makes the next case the last. |
| `RedBlackTree.BlackSiblingRight` | 算法/红黑树 161130118/rbt.cpp:768-777 | Case 1 on the right side moves the shortage up to the parent. |
| `RedBlackTree.Removed` | 算法/红黑树 161130118/rbt.cpp:392-413 | What a removal does to keys, order and black heights, for every position. |
| `RedBlackTree.AttachTree` | 算法/红黑树 161130118/rbt.cpp:241-267 | Hanging a red leaf into the one empty place between its neighbours adds that key in order. |
| `RedBlackTree.RBT.Search` | 算法/红黑树 161130118/rbt.cpp:419-430 | The search ends at the node with the key, for every present key. |
| `RedBlackTree.RBT.GetNext` | 算法/红黑树 161130118/rbt.cpp:432-438 | The node found is leftmost in the right subtree, with no left child. |
| `RedBlackTree.RBT.Run` | 算法/红黑树 161130118/rbt.cpp:211-225 | Any sequence of additions of absent and deletions of present keys leaves exactly the resulting set, with all invariants. |
| `TreeZipper.HeightBound` | 算法/红黑树 161130118/rbt.cpp:227-290 | In every valid tree 2^height <= (keys + 1)^2, that is height <= 2*log2(keys + 1). |
| `Rotations.SingleRotationsKeepKeys` | 算法/红黑树 161130118/rbt.cpp:309-318 | Single rotations keep the keys in order. |
| `Rotations.DoubleRotationsKeepKeys` | 算法/红黑树 161130118/rbt.cpp:322-336 | Double rotations keep the keys in order. |
| `BottleneckMatching.FindRec` | 算法/match.cpp:7-20 | A successful search keeps a matching and matches one more row; a failed one changes nothing, and the columns it visited are a certificate that stays valid for later searches. |
| `BottleneckMatching.AugmentThrough` | 算法/match.cpp:13-16 | Assigning a column after its old row has found another one is an augmentation along the longer path. |
| `BottleneckMatching.ExploreOn` | 算法/match.cpp:9-18 | The columns visited by nested failed searches are explored together. |
| `BottleneckMatching.TryRow` | 算法/match.cpp:33-43 | Each row either joins the matching or becomes part of the certificate. |
| `BottleneckMatching.Matched` | 算法/match.cpp:41-42 | Certificates of earlier failures survive an augmentation. |
| `BottleneckMatching.LeftOver` | 算法/match.cpp:41-42 | A failed search enlarges the certificate. |
| `BottleneckMatching.CoverBound` | 算法/match.cpp:22-47 | No matching has more edges than a set of rows and columns touching all edges has members. |
| `BottleneckMatching.CoverOfEdges` | 算法/match.cpp:22-47 | Koenig's argument: the certificate gives such a set with as many members as rows were matched. |
| `BottleneckMatching.Maximum` | 算法/match.cpp:22-47 | So the matching found is a maximum one. |
| `BottleneckMatching.FindMaxMatch` | 算法/match.cpp:22-47 | The size of a maximum matching of the edges of weight at most `sup`. |
| `BottleneckMatching.CollectWeights` | 算法/match.cpp:51-55 | The array lists the weights of the matrix and no other numbers. |
| `BottleneckMatching.PerfectWhenFull` | 算法/match.cpp:69-71 | The size is k if and only if there is a perfect matching. |
| `BottleneckMatching.NoneBelow` | 算法/match.cpp:69-74 | No perfect matching under one bound means none under a lower one. |
| `BottleneckMatching.HeaviestSuffices` | 算法/match.cpp:58-60 | The largest weight always allows a perfect matching. |
| `BottleneckMatching.Least` | 算法/match.cpp:77-77 | A bound that is not a weight does no more than the greatest weight under it. |
| `BottleneckMatching.Match` | 算法/match.cpp:49-78 | The least weight W such that the edges of weight at most W contain a perfect matching; below it, for every bound, there is none. |
| `Calculator.PostFixOfPrinted` | 程序设计基础实验/lab4/Calculator/Parser.cpp:184-235 | For every well-formed expression tree the conversion of its printed form is its postorder. |
| `Calculator.ConversionIsExact` | 程序设计基础实验/lab4/Calculator/Parser.cpp:74-122 | For every tree over numbers and operators, whatever operands stand where, the conversion of its printed form is its postorder if and only if the tree is well-formed: + - below * / below prefix operators below ^, all binary ones left-associative, a prefix operator before a power or an atom. |
| `Calculator.Reads` | 程序设计基础实验/lab4/Calculator/Parser.cpp:184-229 | Reading any printed expression, in parentheses or on top of any pending operators: which operators are on the stack afterwards and what has been put out. |
| `Calculator.TakeKeeps` | 程序设计基础实验/lab4/Calculator/Parser.cpp:184-229 | Nothing is lost on the way, and one value is gained. |
| `Calculator.Bottom` | 程序设计基础实验/lab4/Calculator/Parser.cpp:193-209 | At the bottom of the stack stays one of the weakest operators. |
| `Calculator.Emptied` | 程序设计基础实验/lab4/Calculator/Parser.cpp:202-209 | An operator that is not weaker than all of what follows is put out too early, when the output has too few values. |
| `Calculator.Splits` | 程序设计基础实验/lab4/Calculator/Parser.cpp:193-209 | Where the root is the last of the weakest operators the operands are converted one by one. |
| `Calculator.PostOrderDepth` | 程序设计基础实验/lab4/Calculator/Parser.cpp:237-364 | Each beginning of a postorder leaves a value. |
| `Calculator.BinaryRule` | 程序设计基础实验/lab4/Calculator/Parser.cpp:74-122 | For a binary operator the printed form is converted to the postorder if and only if the left operand binds at least as tightly and the right one more tightly: + - below * / below ^, all of them left-associative. |
| `Calculator.PrefixRule` | 程序设计基础实验/lab4/Calculator/Parser.cpp:74-122 | For a prefix operator, if and only if its operand is a power or an atom. |
| `Calculator.Parser.ToPostFix` | 程序设计基础实验/lab4/Calculator/Parser.cpp:184-235 | The loops compute that conversion, with the stack never empty. |
| `Calculator.Parser.PopOperators` | 程序设计基础实验/lab4/Calculator/Parser.cpp:202-209 | The inner loop removes exactly the operators that bind more tightly than the incoming one. |
| `Calculator.Parser.TakeNumber` | 程序设计基础实验/lab4/Calculator/Parser.cpp:220-228 | A number goes to the output in parentheses, up to the next operator. |
| `Calculator.ExecPostOrder` | 程序设计基础实验/lab4/Calculator/Parser.cpp:237-364 | Running a postorder pushes the value of its tree or stops at the same error. |
| `Calculator.CalculatorIsCorrect` | 程序设计基础实验/lab4/Calculator/Parser.cpp:184-367 | Conversion and evaluation of a printed tree give the tree's value, or its error; no pop finds an empty stack. |
| `Calculator.Parser.Operate` | 程序设计基础实验/lab4/Calculator/Parser.cpp:253-363 | What one operator does to the value stack, errors included; which operand is which is stated by TreeComesBack and BinaryCalculated. |
| `Calculator.Parser.Calculate` | 程序设计基础实验/lab4/Calculator/Parser.cpp:237-367 | The value on top at the end, or the error value when an error branch is taken. |
| `Calculator.Parser.Evaluate` | 程序设计基础实验/lab4/Calculator/Parser.cpp:184-367 | Both phases on the printed form of any well-formed tree, over any arithmetic; what that value is made of is stated by TreeComesBack, BinaryCalculated, PrefixCalculated and ErrorsSpread. |
| `Calculator.TreeComesBack` | 程序设计基础实验/lab4/Calculator/Parser.cpp:253-363 | Over terms the value of a printed tree is the tree itself without its parentheses: each of the nine operators gets the operands beside it, in their order. |
| `Calculator.ReadBack` | 程序设计基础实验/lab4/Calculator/Parser.cpp:184-367 | The two phases as they run, over terms: a printed tree is read back. |
| `Calculator.BinaryCalculated` | 程序设计基础实验/lab4/Calculator/Parser.cpp:253-306 | From the values b and a of the printed operands, left and right: + - give b+a and b-a; * is an error exactly if a is imaginary and b complex, / exactly if a is zero, ^ exactly if a is not real, and else they give b*a, b/a and b^a. |
| `Calculator.PrefixCalculated` | 程序设计基础实验/lab4/Calculator/Parser.cpp:307-363 | The four prefix operators: negative, modulus, conjugate and argument of the value of the printed operand. |
| `Calculator.ErrorsSpread` | 程序设计基础实验/lab4/Calculator/Parser.cpp:237-367 | An error in an operand is an error of the whole text; a number is its own value and parentheses change nothing. |
| `Calculator.TwoOperators` | 程序设计基础实验/lab4/Calculator/Parser.cpp:74-122 | On the text of two operators between three numbers: the second one is applied first exactly if it is * / or ^ after + or -, or ^ after * or /; everything else goes from left to right, powers included. |
| `Calculator.PrefixFirst` | 程序设计基础实验/lab4/Calculator/Parser.cpp:74-122 | A prefix operator is applied before the binary operator after its number, unless that is ^. |
| `UserThreads.InitialInv` | 操作系统/lab3-161130118尹浚宇/lab/lib/pthread.c:78-88 | The first state satisfies the invariant. |
| `UserThreads.CreateInv` | 操作系统/lab3-161130118尹浚宇/lab/lib/pthread.c:90-122 | Creating keeps it, fails exactly when no entry is dead, and else makes the first dead entry runnable without a target; all other entries stay as they are. |
| `UserThreads.JoinInv` | 操作系统/lab3-161130118尹浚宇/lab/lib/pthread.c:193-217 | Joining keeps it if and only if the target is dead, or neither the caller nor blocked. |
| `UserThreads.JoinWaits` | 操作系统/lab3-161130118尹浚宇/lab/lib/pthread.c:193-217 | Joining a live thread blocks the caller with that target, makes the target current and running, and changes no other entry; joining a dead one changes nothing. |
| `UserThreads.WaitsUntilExit` | 操作系统/lab3-161130118尹浚宇/lab/lib/pthread.c:193-217 | Over runs: after that the caller is blocked, and not current, in every state until the target has exited. |
| `UserThreads.WakesAtExit` | 操作系统/lab3-161130118尹浚宇/lab/lib/pthread.c:124-145 | Over runs: when the target exits the caller is runnable. |
| `UserThreads.YieldInv` | 操作系统/lab3-161130118尹浚宇/lab/lib/pthread.c:219-234 | Yielding keeps it and all targets, and changes the two threads concerned only. |
| `UserThreads.ExitInv` | 操作系统/lab3-161130118尹浚宇/lab/lib/pthread.c:124-145 | Exiting while another thread lives keeps it, buries the caller, wakes exactly those that waited for it, leaves all other targets, and leaves the next thread marked runnable. |
| `UserThreads.ExitFindsSomeone` | 操作系统/lab3-161130118尹浚宇/lab/lib/pthread.c:136-139 | After an exit something is runnable if and only if another thread was alive: waits form no cycle, so they end at a runnable one. |
| `UserThreads.ScanStops` | 操作系统/lab3-161130118尹浚宇/lab/lib/pthread.c:136-139 | The scan around the table ends if and only if something is runnable. |
| `UserThreads.RunsKeepInv` | 操作系统/lab3-161130118尹浚宇/lab/lib/pthread.c:78-234 | In every state of every allowed run at most one thread is running, it is the current one, blocked threads wait for live ones, without cycles, and nobody else has a target. |
| `UserThreads.RunningUnlessExited` | 操作系统/lab3-161130118尹浚宇/lab/lib/pthread.c:78-234 | Along every allowed run the current thread is marked running, except since an exit after which nothing has switched threads; then it is marked runnable. |
| `UserThreads.RunnableGetsItsTurn` | 操作系统/lab3-161130118尹浚宇/lab/lib/pthread.c:219-234 | While threads only yield, a runnable thread runs after fewer yields than there are entries. |
| `UserThreads.ThreadTable.PthreadCreate` | 操作系统/lab3-161130118尹浚宇/lab/lib/pthread.c:90-122 | The method on the table does the creation step and returns -1 exactly on failure. |
| `UserThreads.ThreadTable.PthreadExit` | 操作系统/lab3-161130118尹浚宇/lab/lib/pthread.c:124-145 | The method does the exit step; its scan terminates. |
| `UserThreads.ThreadTable.PthreadJoin` | 操作系统/lab3-161130118尹浚宇/lab/lib/pthread.c:193-217 | The method does the join step, which JoinWaits describes. |
| `UserThreads.ThreadTable.PthreadYield` | 操作系统/lab3-161130118尹浚宇/lab/lib/pthread.c:219-234 | The method does the yield step; its scan terminates. |
| `UserThreads.ThreadTable.Scan` | 操作系统/lab3-161130118尹浚宇/lab/lib/pthread.c:136-139 | The first runnable entry after the current one. |
| `UserThreads.ScanFirst` | 操作系统/lab3-161130118尹浚宇/lab/lib/pthread.c:136-139 | No runnable entry lies between the place the scan starts from and the one it returns. |
| `ScopedSymbols.HashPjw` | 编译原理/161130118_尹浚宇_Lab2_v1_group30/Lab/Code/symTable.c:5-15 | The hash of every name is at most 0x3fff. |
| `ScopedSymbols.HashReachesSize` | 编译原理/161130118_尹浚宇_Lab2_v1_group30/Lab/Code/symTable.c:5-15 | The name `XGGXXG` has the hash 0x3fff, the size of the table itself; the index is inside the table exactly for the other names. |
| `ScopedSymbols.LatestIsInnermost` | 编译原理/161130118_尹浚宇_Lab2_v1_group30/Lab/Code/symTable.c:100-111 | The latest live symbol of a name is the innermost binding in the stack of maps. |
| `ScopedSymbols.BucketHasFirst` | 编译原理/161130118_尹浚宇_Lab2_v1_group30/Lab/Code/symTable.c:100-111 | Walking one bucket finds what walking all live symbols would. |
| `ScopedSymbols.Table.GetSym` | 编译原理/161130118_尹浚宇_Lab2_v1_group30/Lab/Code/symTable.c:100-111 | The innermost live binding of the name, or null. |
| `ScopedSymbols.Table.PutSym` | 编译原理/161130118_尹浚宇_Lab2_v1_group30/Lab/Code/symTable.c:70-99 | Accepts a name unless it is declared in the current scope or is a structure name, and then updates the top map and nothing else. |
| `ScopedSymbols.Table.InScope` | 编译原理/161130118_尹浚宇_Lab2_v1_group30/Lab/Code/symTable.c:72-79 | The walk down the scope chain finds exactly the names of the current scope. |
| `ScopedSymbols.Table.Link` | 编译原理/161130118_尹浚宇_Lab2_v1_group30/Lab/Code/symTable.c:87-96 | The new symbol heads its bucket and its scope; all other links still hold. |
| `ScopedSymbols.Table.PutStruct` | 编译原理/161130118_尹浚宇_Lab2_v1_group30/Lab/Code/symTable.c:113-132 | Records a structure name unless it is known or a symbol of the current scope. |
| `ScopedSymbols.Table.Push` | 编译原理/161130118_尹浚宇_Lab2_v1_group30/Lab/Code/symTable.c:43-50 | One empty map more on the stack of maps, with no change in memory but the top. |
| `ScopedSymbols.Table.Pop` | 编译原理/161130118_尹浚宇_Lab2_v1_group30/Lab/Code/symTable.c:51-69 | The top map goes; overwriting bucket heads is enough, because the symbols of the innermost scope are first in their buckets. |
| `ScopedSymbols.Table.RemoveFirst` | 编译原理/161130118_尹浚宇_Lab2_v1_group30/Lab/Code/symTable.c:56-66 | Taking off the first symbol of the scope leaves both kinds of chains right for the rest. |
| `ScopedSymbols.MapsWithTop` | 编译原理/161130118_尹浚宇_Lab2_v1_group30/Lab/Code/symTable.c:43-69 | The stack of maps seen from its top. |
| `ScopedSymbols.Table.SameChains` | 编译原理/161130118_尹浚宇_Lab2_v1_group30/Lab/Code/symTable.c:43-69 | Equal scopes have equal heads and equal links. |
| `ScopedSymbols.Table.Work` | 编译原理/161130118_尹浚宇_Lab2_v1_group30/Lab/Code/symTable.c:43-111 | Any nested work inside a scope leaves the scopes around it alone. |
| `ScopedSymbols.Table.InBlock` | 编译原理/161130118_尹浚宇_Lab2_v1_group30/Lab/Code/symTable.c:43-111 | After a push, any balanced work and the pop, every bucket head, stack entry and link is what it was. |
| `Translator.Translator.TranslateExp` | 编译原理/161130118_尹浚宇_Lab4_v1_group30/Code/interCode.c:898-1247 | The code appended computes the expression into its place, operands from left to right, `&&` and `\|\|` only as far as needed, in every program it may stand in; it keeps all older temporaries, and every new label stands in it once. Without a place it holds an operation or a reading whose result has none exactly if that is what the expression is. |
| `Translator.Translator.TranslateSet` | 编译原理/161130118_尹浚宇_Lab4_v1_group30/Code/interCode.c:904-931 | The same for an assignment to a variable. |
| `Translator.Translator.TranslateMinus` | 编译原理/161130118_尹浚宇_Lab4_v1_group30/Code/interCode.c:1092-1100 | The same for a negation. |
| `Translator.Translator.TranslateTwo` | 编译原理/161130118_尹浚宇_Lab4_v1_group30/Code/interCode.c:964-967 | Both operands, the left one first, end up in the two new temporaries. |
| `Translator.Translator.TranslateArith` | 编译原理/161130118_尹浚宇_Lab4_v1_group30/Code/interCode.c:961-1000 | The same for + - * /. |
| `Translator.Translator.TranslateTruth` | 编译原理/161130118_尹浚宇_Lab4_v1_group30/Code/interCode.c:932-952 | The value of a condition is 1 or 0. |
| `Translator.Translator.TranslateCond` | 编译原理/161130118_尹浚宇_Lab4_v1_group30/Code/interCode.c:1254-1304 | The code appended jumps to the one label or the other as the condition is true or false; with an assignment or an arithmetic operator on top nothing is appended and a message is given, and only then. |
| `Translator.Translator.TranslateAnd` | 编译原理/161130118_尹浚宇_Lab4_v1_group30/Code/interCode.c:1264-1270 | The second operand is reached only if the first one is true. |
| `Translator.Translator.TranslateOr` | 编译原理/161130118_尹浚宇_Lab4_v1_group30/Code/interCode.c:1271-1277 | The second operand is reached only if the first one is false. |
| `Translator.Translator.TranslateCompare` | 编译原理/161130118_尹浚宇_Lab4_v1_group30/Code/interCode.c:1278-1287 | Comparison of two operands. |
| `Translator.Translator.TranslateNonZero` | 编译原理/161130118_尹浚宇_Lab4_v1_group30/Code/interCode.c:1294-1303 | Any other condition is compared with zero. |
| `Translator.Translator.TranslateStmt` | 编译原理/161130118_尹浚宇_Lab4_v1_group30/Code/interCode.c:735-828 | The code appended does what the statement does: it comes to its own end, returns, crashes or runs on as the statement does. It holds an operation or a reading without a place exactly if one stands as a statement of its own. |
| `Translator.Translator.TranslateUse` | 编译原理/161130118_尹浚宇_Lab4_v1_group30/Code/interCode.c:755-762 | Return, write and initialisation, after the value has been computed. |
| `Translator.Translator.TranslateCompSt` | 编译原理/161130118_尹浚宇_Lab4_v1_group30/Code/interCode.c:710-733 | A sequence of statements. |
| `Translator.Translator.TranslateIf` | 编译原理/161130118_尹浚宇_Lab4_v1_group30/Code/interCode.c:767-778 | One-armed `if`; without its condition the code does what the body does. |
| `Translator.Translator.TranslateIfElse` | 编译原理/161130118_尹浚宇_Lab4_v1_group30/Code/interCode.c:780-802 | Two-armed `if`. |
| `Translator.Translator.TranslateWhile` | 编译原理/161130118_尹浚宇_Lab4_v1_group30/Code/interCode.c:805-827 | Loop; the one jump back leads to a label followed by a plain instruction. |
| `Translator.Translate` | 编译原理/161130118_尹浚宇_Lab4_v1_group30/Code/interCode.c:483-494 | For a whole program: every label stands exactly once, every jump has a target, no jump stands directly before another one, messages come exactly for programs with a condition topped by arithmetic or assignment, and without messages the code does what the program does. |
| `Realisation.ArithRuns` | 编译原理/161130118_尹浚宇_Lab4_v1_group30/Code/interCode.c:961-1000 | Code for both operands and the operation is code for the expression. |
| `Realisation.TruthRuns` | 编译原理/161130118_尹浚宇_Lab4_v1_group30/Code/interCode.c:932-952 | Code for a condition makes code for its value. |
| `Realisation.AndRuns` | 编译原理/161130118_尹浚宇_Lab4_v1_group30/Code/interCode.c:1264-1270 | Short-circuit conjunction. |
| `Realisation.OrRuns` | 编译原理/161130118_尹浚宇_Lab4_v1_group30/Code/interCode.c:1271-1277 | Short-circuit disjunction. |
| `Realisation.CompareRuns` | 编译原理/161130118_尹浚宇_Lab4_v1_group30/Code/interCode.c:1278-1287 | Comparison. |
| `Realisation.IfRuns` | 编译原理/161130118_尹浚宇_Lab4_v1_group30/Code/interCode.c:767-778 | One-armed `if`. |
| `Realisation.IfElseRuns` | 编译原理/161130118_尹浚宇_Lab4_v1_group30/Code/interCode.c:780-802 | Two-armed `if`. |
| `Realisation.LoopFrom` | 编译原理/161130118_尹浚宇_Lab4_v1_group30/Code/interCode.c:805-827 | From its first label the code of a loop does what the loop does, for any number of rounds. |
| `Realisation.WhileRuns` | 编译原理/161130118_尹浚宇_Lab4_v1_group30/Code/interCode.c:805-827 | Loop, wherever it stands. |
| `Realisation.OneMoreRuns` | 编译原理/161130118_尹浚宇_Lab4_v1_group30/Code/interCode.c:718-733 | One statement more in a sequence. |
| `WholeProgram.EndIsReached` | 编译原理/161130118_尹浚宇_Lab4_v1_group30/Code/interCode.c:483-494 | A program that ends is matched by a run that ends alike. |
| `WholeProgram.EndIsMeant` | 编译原理/161130118_尹浚宇_Lab4_v1_group30/Code/interCode.c:483-494 | A run that ends is the run of a program that ends alike. |
| `WholeProgram.RunsForEver` | 编译原理/161130118_尹浚宇_Lab4_v1_group30/Code/interCode.c:483-494 | The code runs for ever if and only if the program does. |
| `WholeProgram.OutputSoFar` | 编译原理/161130118_尹浚宇_Lab4_v1_group30/Code/interCode.c:483-494 | Also in runs that do not end the output is the same, prefix by prefix. |
| `WholeProgram.RunsMeans` | 编译原理/161130118_尹浚宇_Lab4_v1_group30/Code/interCode.c:483-494 | So the code means what the program means, seen from outside. |
| `SourceLanguage.ArithmeticMeans` | 编译原理/161130118_尹浚宇_Lab4_v1_group30/Code/interCode.c:961-1000 | The meaning the translation is proved for: left operand first, then the right one, and the sum, difference, product or truncated quotient of the two in this order; a zero divisor crashes. |
| `SourceLanguage.ComparisonsMean` | 编译原理/161130118_尹浚宇_Lab4_v1_group30/Code/interCode.c:1278-1287 | The six comparisons of the left value with the right one. |
| `SourceLanguage.TruthMeans` | 编译原理/161130118_尹浚宇_Lab4_v1_group30/Code/interCode.c:1256-1277 | Short-circuit conjunction and disjunction, negation, and the negative of a number. |
| `ThreeAddress.QuotientTruncates` | 编译原理/161130118_尹浚宇_Lab4_v1_group30/Code/interCode.c:961-1000 | The quotient of both languages: the rest is smaller than the divisor and has the sign of the dividend. |
| `ThreeAddress.CalcLaws` | 编译原理/161130118_尹浚宇_Lab4_v1_group30/Code/interCode.c:961-1000 | Addition counts up by ones, multiplication by the other factor; subtraction and exact division undo them. |
| `ThreeAddress.HoldsBySign` | 编译原理/161130118_尹浚宇_Lab4_v1_group30/Code/interCode.c:1278-1287 | Each of the six relations by the sign of the difference. |
| `Rewriting.GotoNext` | 编译原理/161130118_尹浚宇_Lab4_v1_group30/Code/interCode.c:1311-1323 | Dropping a jump to the next instruction cannot be seen in any run, ending or not. |
| `Rewriting.TurnBranch` | 编译原理/161130118_尹浚宇_Lab4_v1_group30/Code/interCode.c:1324-1379 | Turning a branch over a jump round cannot be seen in any run. |
| `Rewriting.Opposite` | 编译原理/161130118_尹浚宇_Lab4_v1_group30/Code/interCode.c:1342-1377 | The inverted comparison holds exactly when the original one does not. |
| `Rewriting.GotoAfterReturn` | 编译原理/161130118_尹浚宇_Lab4_v1_group30/Code/interCode.c:1525-1542 | Dropping a jump after a return cannot be seen in any run. |
| `Rewriting.UselessLabel` | 编译原理/161130118_尹浚宇_Lab4_v1_group30/Code/interCode.c:1399-1411 | Dropping a label nobody jumps to cannot be seen in any run. |
| `Rewriting.MergeLabels` | 编译原理/161130118_尹浚宇_Lab4_v1_group30/Code/interCode.c:1412-1441 | Merging two neighbouring labels together with all the jumps to the first one cannot be seen in any run. |
| `Rewriting.ThreadJump` | 编译原理/161130118_尹浚宇_Lab4_v1_group30/Code/interCode.c:1869-1898 | Sending a jump on through a label with a jump after it cannot be seen in any run. |
| `Rewriting.NoPlace` | 编译原理/161130118_尹浚宇_Lab4_v1_group30/Code/interCode.c:521-533 | Dropping an assignment to nothing cannot be seen in any run. |
| `ThreeAddress.Bisimilar` | 编译原理/161130118_尹浚宇_Lab4_v1_group30/Code/interCode.c:1306-1442 | Programs that simulate each other pass through the same states from every start. |
| `CleanUp.IrList.OptGoto` | 编译原理/161130118_尹浚宇_Lab4_v1_group30/Code/interCode.c:1306-1382 | Nothing can be seen of the pass. Afterwards a jump to the next instruction or a branch over a jump is left if and only if there was a knot: two jumps one directly after the other, the second one to the next instruction, and the first one or a branch over it to the same place. Code of the translator has no two jumps in a row, so there nothing is left. |
| `CleanUp.GotoPassLeaves` | 编译原理/161130118_尹浚宇_Lab4_v1_group30/Code/interCode.c:1306-1382 | That, by induction along the pass: what will be left stands there already or is a knot further on. |
| `CleanUp.GotoPassIsExact` | 编译原理/161130118_尹浚宇_Lab4_v1_group30/Code/interCode.c:1306-1382 | The same for the whole pass. |
| `CleanUp.IrList.DeleteGoto` | 编译原理/161130118_尹浚宇_Lab4_v1_group30/Code/interCode.c:1525-1542 | Nothing can be seen of the pass. Afterwards a jump stands after a return if and only if two jumps stood after one; so none does in code of the translator. |
| `CleanUp.ReturnPassIsExact` | 编译原理/161130118_尹浚宇_Lab4_v1_group30/Code/interCode.c:1525-1542 | Exactly where two jumps stand after a return one is left. |
| `CleanUp.IrList.MergeAt` | 编译原理/161130118_尹浚宇_Lab4_v1_group30/Code/interCode.c:1420-1438 | The loop over the jumps changes the label number in exactly the records with the first number that a jump before the labels uses, and takes the first label out. |
| `CleanUp.MergeIsExact` | 编译原理/161130118_尹浚宇_Lab4_v1_group30/Code/interCode.c:1420-1438 | After that change of records every jump still has a target if and only if each later jump to the first label shares its record with a jump before the labels; then nothing can be seen of it. |
| `CleanUp.LostLoop` | 编译原理/161130118_尹浚宇_Lab4_v1_group30/Code/interCode.c:1412-1441 | The loop LABEL 1, LABEL 2, GOTO 1 is lost that way. |
| `CleanUp.KeptLoop` | 编译原理/161130118_尹浚宇_Lab4_v1_group30/Code/interCode.c:1412-1441 | With a jump before it that shares the record of the jump back the loop is kept. |
| `CleanUp.IrList.MergeUnseen` | 编译原理/161130118_尹浚宇_Lab4_v1_group30/Code/interCode.c:1420-1438 | In a valid list no later jump goes to the first label, so nothing can be seen of the merging. |
| `CleanUp.IrList.DeleteUselessLabel` | 编译原理/161130118_尹浚宇_Lab4_v1_group30/Code/interCode.c:1384-1442 | Afterwards no two labels are neighbours, for any list; in a valid list every label is jumped to and nothing can be seen of the change. |
| `CleanUp.IrList.MarkJumps` | 编译原理/161130118_尹浚宇_Lab4_v1_group30/Code/interCode.c:1386-1397 | The map marks exactly the numbers that are jumped to, for any list. |
| `CleanUp.IrList.OptLabel` | 编译原理/161130118_尹浚宇_Lab4_v1_group30/Code/interCode.c:1869-1898 | Nothing can be seen of the pass, and afterwards no jump at all leads to a label with a jump after it. |
| `CleanUp.IrList.ThreadOne` | 编译原理/161130118_尹浚宇_Lab4_v1_group30/Code/interCode.c:1881-1894 | A jump gets a label record of its own, so that no other jump changes with it. |
| `CleanUp.IrList.DropUnplaced` | 编译原理/161130118_尹浚宇_Lab4_v1_group30/Code/interCode.c:521-533 | No assignment to nothing is left, nothing that can be seen has changed, and every label is still jumped to. |
| `Compiler.Optimize` | 编译原理/161130118_尹浚宇_Lab4_v1_group30/Code/interCode.c:494-533 | The control-flow passes one after the other: what each makes of the list before it; together they keep everything that can be seen, every label left is jumped to, and an operation without a place stays if and only if there was one. |
| `Compiler.Compile` | 编译原理/161130118_尹浚宇_Lab4_v1_group30/Code/interCode.c:483-533 | A program is compiled if and only if there are no messages, it takes fewer than 1024 labels and no operation or reading stands as a statement of its own; then every result has a place and the code means what the program means: same results, same crashes, same output, also in runs that do not end. |
| `Compiler.DroppedIf` | 编译原理/161130118_尹浚宇_Lab4_v1_group30/Code/interCode.c:1288-1292 | The code emitted for `if (0 * 1) write(7);` does not mean that. |
| `ArrayAddress.DecSize` | 编译原理/161130118_尹浚宇_Lab4_v1_group30/Code/interCode.c:639-658 | The space given to an array is four bytes for each cell. |
| `ArrayAddress.Steps` | 编译原理/161130118_尹浚宇_Lab4_v1_group30/Code/interCode.c:1014-1027 | The step of each index is the size of what lies behind it, four bytes for the last one. |
| `ArrayAddress.OffsetCode` | 编译原理/161130118_尹浚宇_Lab4_v1_group30/Code/interCode.c:1029-1046 | From every state the emitted code leaves the row-major byte offset, the last index being taken first. |
| `ArrayAddress.OffsetInside` | 编译原理/161130118_尹浚宇_Lab4_v1_group30/Code/interCode.c:639-658 | With every index inside its dimension the offset lies in the space given, on a cell, and no other indices have it. |
| `ArrayAddress.RowMajorInjective` | 编译原理/161130118_尹浚宇_Lab4_v1_group30/Code/interCode.c:1014-1046 | Different indices have different cells. |
| `ArrayAddress.RowsInOrder` | 编译原理/161130118_尹浚宇_Lab4_v1_group30/Code/interCode.c:1014-1046 | Row by row: of two index vectors the one that is smaller at the first difference has the smaller offset. |
| `ArrayAddress.NextInRow` | 编译原理/161130118_尹浚宇_Lab4_v1_group30/Code/interCode.c:1014-1046 | The next last index is the next cell. |
| `ArrayAddress.EveryCell` | 编译原理/161130118_尹浚宇_Lab4_v1_group30/Code/interCode.c:639-658 | No space is left over: every cell belongs to some indices inside the dimensions. |
| `ObjectCode.Generator.MemoryToRegs` | 编译原理/161130118_尹浚宇_Lab4_v1_group30/Code/objectCode.c:277-308 | A new name gets the next word of the frame; its slot is loaded. |
| `ObjectCode.Generator.RegsToMemory` | 编译原理/161130118_尹浚宇_Lab4_v1_group30/Code/objectCode.c:310-331 | The register is stored in the slot of the name it was loaded for, which gets one if it has none, and forgotten. |
| `ObjectCode.Generator.MakeAssign` | 编译原理/161130118_尹浚宇_Lab4_v1_group30/Code/objectCode.c:560-603 | What is emitted for an assignment. |
| `ObjectCode.Generator.MakeArith` | 编译原理/161130118_尹浚宇_Lab4_v1_group30/Code/objectCode.c:605-985 | What is emitted for + - * /. |
| `ObjectCode.Generator.MakeObjectCodes` | 编译原理/161130118_尹浚宇_Lab4_v1_group30/Code/objectCode.c:83-88 | The machine code is that of the instructions, one after the other, and the frame has grown by their new names. |
| `ObjectCode.AllCarried` | 编译原理/161130118_尹浚宇_Lab4_v1_group30/Code/objectCode.c:560-985 | For all straight-line code over distinct names: run from a frame that holds the values before, the machine code ends in one that holds the values after, or stops at the same division by zero; slots never overlap and $sp stays at $fp plus the offset. |
| `ObjectCode.NamesDecide` | 编译原理/161130118_尹浚宇_Lab4_v1_group30/Code/objectCode.c:198-222 | All straight-line code over a set of operands that reads nothing uninitialised is carried by its machine code if and only if no two of them have the same printed name. |
| `ObjectCode.EmittedCarries` | 编译原理/161130118_尹浚宇_Lab4_v1_group30/Code/objectCode.c:560-985 | The same for one instruction. |
| `ObjectCode.LayoutKept` | 编译原理/161130118_尹浚宇_Lab4_v1_group30/Code/objectCode.c:282-292 | A new slot overlaps no other. |
| `ObjectCode.StoreDoes` | 编译原理/161130118_尹浚宇_Lab4_v1_group30/Code/objectCode.c:310-331 | Storing a result changes the value of its own name and of no other. |
| `ObjectCode.NoClashMeans` | 编译原理/161130118_尹浚宇_Lab4_v1_group30/Code/objectCode.c:198-222 | Printed names are distinct if and only if no program variable is called like a temporary. |
| `ObjectCode.SharedSlot` | 编译原理/161130118_尹浚宇_Lab4_v1_group30/Code/objectCode.c:198-222 | An instance: with a variable called `t1` beside the first temporary, `x := t1` copies the wrong value. |
| `BufferedIO.Printer.Printf` | 操作系统/lab4-161130118尹浚宇/lab/lib/syscall.c:62-139 | What reaches the system is the formatted text, however often the buffer was full. |
| `BufferedIO.Printer.Dec2Str` | 操作系统/lab4-161130118尹浚宇/lab/lib/syscall.c:141-187 | The decimal text of any 32-bit integer, the least one included. |
| `BufferedIO.Printer.DecDigits` | 操作系统/lab4-161130118尹浚宇/lab/lib/syscall.c:153-175 | The digits, last one first, without running over the sixteen places. |
| `BufferedIO.Printer.Hex2Str` | 操作系统/lab4-161130118尹浚宇/lab/lib/syscall.c:189-218 | The hexadecimal text of any 32-bit word. |
| `BufferedIO.Printer.Str2Str` | 操作系统/lab4-161130118尹浚宇/lab/lib/syscall.c:220-232 | The characters of a string. |
| `BufferedIO.Scanner.Refill` | 操作系统/lab4-161130118尹浚宇/lab/lib/syscall.c:367-372 | A refill changes nothing that is still to be read. |
| `BufferedIO.Scanner.MatchWhiteSpace` | 操作系统/lab4-161130118尹浚宇/lab/lib/syscall.c:364-381 | Skips white space; waits until something else comes. |
| `BufferedIO.Scanner.Str2Dec` | 操作系统/lab4-161130118尹浚宇/lab/lib/syscall.c:383-446 | Reads an integer from the characters alone, with 32-bit arithmetic. |
| `BufferedIO.Scanner.Str2Hex` | 操作系统/lab4-161130118尹浚宇/lab/lib/syscall.c:448-531 | Reads a prefixed hexadecimal number. |
| `BufferedIO.Scanner.Str2Str2` | 操作系统/lab4-161130118尹浚宇/lab/lib/syscall.c:533-577 | Reads a word up to its width; what word that is, is stated by WordRead and LongWordRead. |
| `BufferedIO.Scanner.Scanf` | 操作系统/lab4-161130118尹浚宇/lab/lib/syscall.c:239-362 | The result is a function of the format and of all characters still to come, which the following rows state on text. |
| `BufferedIO.ScanTwice` | 操作系统/lab4-161130118尹浚宇/lab/lib/syscall.c:239-362 | However the input is cut into chunks, a call gives the same. |
| `BufferedIO.PrintsLine` | 操作系统/lab4-161130118尹浚宇/lab/lib/syscall.c:62-139 | Numbers printed with %d, blanks and a newline give that line. |
| `BufferedIO.PrintLine` | 操作系统/lab4-161130118尹浚宇/lab/lib/syscall.c:62-139 | Printing through the buffer writes that line. |
| `BufferedIO.RoundTrip` | 操作系统/lab4-161130118尹浚宇/lab/lib/syscall.c:239-446 | Reading such a line back gives the numbers, for all 32-bit integers, the least one by wrapping around. |
| `BufferedIO.ReadLine` | 操作系统/lab4-161130118尹浚宇/lab/lib/syscall.c:239-446 | The same, with the line cut into any chunks. |
| `BufferedIO.HexNotReadBack` | 操作系统/lab4-161130118尹浚宇/lab/lib/syscall.c:448-531 | No number printed with %x is read back with %x, because the prefix is missing: a nonzero one fails at its first digit, zero after it unless an x follows. |
| `BufferedIO.HexReadBack` | 操作系统/lab4-161130118尹浚宇/lab/lib/syscall.c:448-531 | With the prefix in front every 32-bit word is, from 2^31 on as the negative integer with the same bits. |
| `BufferedIO.WordRead` | 操作系统/lab4-161130118尹浚宇/lab/lib/syscall.c:533-577 | After any white space a word of less than n characters with white space behind it is stored as it is, and the input stands at that white space. |
| `BufferedIO.LongWordRead` | 操作系统/lab4-161130118尹浚宇/lab/lib/syscall.c:533-577 | Of a longer word the first n-1 characters are stored and the others stay. |
| `BufferedIO.WidthRead` | 操作系统/lab4-161130118尹浚宇/lab/lib/syscall.c:310-347 | The digits of a width in the format are taken as that number. |
| `BufferedIO.StoresWord` | 操作系统/lab4-161130118尹浚宇/lab/lib/syscall.c:239-362 | So `%<n>s` stores exactly that word and goes on behind it. |
| `BufferedIO.StoresBeginning` | 操作系统/lab4-161130118尹浚宇/lab/lib/syscall.c:239-362 | And of a longer one exactly its beginning. |
| `BufferedIO.StoresCharacter` | 操作系统/lab4-161130118尹浚宇/lab/lib/syscall.c:280-309 | `%c` stores the next character, white space too; `%%` takes a percent sign and stops the call at anything else. |
| `BufferedIO.TakesCharacter` | 操作系统/lab4-161130118尹浚宇/lab/lib/syscall.c:268-275 | A character outside of a conversion takes the same character and stops the call at any other. |
| `BufferedIO.TakesBlanks` | 操作系统/lab4-161130118尹浚宇/lab/lib/syscall.c:262-267 | White space in the format takes white space of any length. |
| `BufferedIO.StoresNumber` | 操作系统/lab4-161130118尹浚宇/lab/lib/syscall.c:383-446 | `%d` takes any 32-bit integer in decimal after white space; where no sign or digit comes the call stops. |
| `BufferedIO.ReadsHex` | 操作系统/lab4-161130118尹浚宇/lab/lib/syscall.c:448-531 | After white space and the prefix, any number of hexadecimal digits, in small letters, capitals or both, is read by its place values, in 32-bit arithmetic. |
| `BufferedIO.ReadsDecimal` | 操作系统/lab4-161130118尹浚宇/lab/lib/syscall.c:383-446 | After white space, any number of decimal digits is read by its place values, in 32-bit arithmetic; with a minus sign before them the negative. |
| `BufferedIO.WrapMeans` | 操作系统/lab4-161130118尹浚宇/lab/lib/syscall.c:383-446 | That arithmetic gives the one 32-bit integer that differs by a multiple of 2^32. |
| `BufferedIO.DigitsSpelled` | 操作系统/lab4-161130118尹浚宇/lab/lib/syscall.c:141-187 | The decimal text of a number has it as its value by places, in the digits 0 to 9, without a zero too many. |
| `BufferedIO.HexSpelled` | 操作系统/lab4-161130118尹浚宇/lab/lib/syscall.c:189-218 | The same for hexadecimal text, in small letters. |
| `BufferedIO.Writes` | 操作系统/lab4-161130118尹浚宇/lab/lib/syscall.c:62-139 | What `%s`, `%c`, `%x` and `%%` write. |
| `BufferedIO.PrintsWords` | 操作系统/lab4-161130118尹浚宇/lab/lib/syscall.c:62-139 | Words printed with `%s ` each are the words with a blank after each. |
| `BufferedIO.ReadsWords` | 操作系统/lab4-161130118尹浚宇/lab/lib/syscall.c:239-362 | Read with as many `%<n>s`, words of less than n characters come back. |
| `BufferedIO.WordsThrough` | 操作系统/lab4-161130118尹浚宇/lab/lib/syscall.c:62-362 | Both through the buffers, with the text cut into any chunks. |
| `HourlyCounts.Map` | 大数据处理综合实验/2020st01_尹浚宇_日志统计分析/程序源代码/task1-4/Task2.java:79-88 | One pair for each line with ten fields; no result for a line of ten fields without an hour. What the pair is, is stated on the text by MapsVisit. |
| `HourlyCounts.MapsVisit` | 大数据处理综合实验/2020st01_尹浚宇_日志统计分析/程序源代码/task1-4/Task2.java:79-88 | On text: the line `ip date:hh:rest f1 ... f8` with an hour from 00 to 23 gives the one pair with the key `ip#hh`, and is counted for that address in that hour and for nothing else. |
| `HourlyCounts.OtherLines` | 大数据处理综合实验/2020st01_尹浚宇_日志统计分析/程序源代码/task1-4/Task2.java:79-88 | On text: a line of other than ten fields gives nothing, and one without a colon in its second field ends the map. |
| `HourlyCounts.SplitJoined` | 大数据处理综合实验/2020st01_尹浚宇_日志统计分析/程序源代码/task1-4/Task2.java:79-83 | Splitting at a character gives back what was joined with it, if the last part is not empty. |
| `HourlyCounts.HourIsRead` | 大数据处理综合实验/2020st01_尹浚宇_日志统计分析/程序源代码/task1-4/Task2.java:132-136 | The hours 00 to 23 are read as those numbers. |
| `HourlyCounts.MapWeighs` | 大数据处理综合实验/2020st01_尹浚宇_日志统计分析/程序源代码/task1-4/Task2.java:79-88 | The pairs of an address and an hour weigh as much as there are such lines. |
| `HourlyCounts.Combine` | 大数据处理综合实验/2020st01_尹浚宇_日志统计分析/程序源代码/task1-4/Task2.java:96-102 | The sum of the values of a key. |
| `HourlyCounts.CombinedRunKeeps` | 大数据处理综合实验/2020st01_尹浚宇_日志统计分析/程序源代码/task1-4/Task2.java:92-103 | Any number of applications of the combiner keeps keys and weights. |
| `HourlyCounts.BetweenSharesBeginning` | 大数据处理综合实验/2020st01_尹浚宇_日志统计分析/程序源代码/task1-4/Task2.java:132-136 | In lexicographic order, what lies between two strings with a common beginning has that beginning. |
| `HourlyCounts.KeysTogether` | 大数据处理综合实验/2020st01_尹浚宇_日志统计分析/程序源代码/task1-4/Task2.java:132-136 | So the keys of one address stand together in a sorted stream. |
| `HourlyCounts.Reducer.Reduce` | 大数据处理综合实验/2020st01_尹浚宇_日志统计分析/程序源代码/task1-4/Task2.java:132-159 | A record is written when the address changes; then counting starts again. |
| `HourlyCounts.Reducer.ReduceNext` | 大数据处理综合实验/2020st01_尹浚宇_日志统计分析/程序源代码/task1-4/Task2.java:132-159 | In an ordered stream without the word the reducer starts with, the records written are complete and each address has one; with it, that word never gets a record. |
| `HourlyCounts.Reducer.Cleanup` | 大数据处理综合实验/2020st01_尹浚宇_日志统计分析/程序源代码/task1-4/Task2.java:162-180 | The last address gets its record too, unless it is the word the reducer starts with. |
| `HourlyCounts.RunReducer` | 大数据处理综合实验/2020st01_尹浚宇_日志统计分析/程序源代码/task1-4/Task2.java:117-181 | Exactly one complete record for each address of an ordered stream, if and only if the word the reducer starts with is not among them. |
| `HourlyCounts.JobCounts` | 大数据处理综合实验/2020st01_尹浚宇_日志统计分析/程序源代码/task1-4/Task2.java:74-181 | For any log, any applications of the combiner, any assignment of addresses to reducers: a reducer's records are those of its own addresses in the log, one each, with the number of lines of each hour and their sum, if and only if none of its own lines has the address `NO`. |
| `HourlyCounts.JobIsRight` | 大数据处理综合实验/2020st01_尹浚宇_日志统计分析/程序源代码/task1-4/Task2.java:74-181 | The whole job, for any log, any applications of the combiner, any hash and any number of reducers: exactly one complete record for each address, in all files together, if and only if no line has the address `NO`. |
| `HourlyCounts.VisitsCounted` | 大数据处理综合实验/2020st01_尹浚宇_日志统计分析/程序源代码/task1-4/Task2.java:79-88 | The lines counted for an address and an hour are as many as the requests of that address in that hour. |
| `HourlyCounts.JobCountsVisits` | 大数据处理综合实验/2020st01_尹浚宇_日志统计分析/程序源代码/task1-4/Task2.java:74-181 | The whole job on requests: in all files together there is exactly one record for each address, and its cells hold how many requests came from it in each hour. |
| `HourlyCounts.WordAsAddress` | 大数据处理综合实验/2020st01_尹浚宇_日志统计分析/程序源代码/task1-4/Task2.java:137-156 | An address spelled `NO` gets no record and its lines go to the next one. |
| `LetterPool.Game.LinkAll` | ICS/pa2018_fall/game/include/adt/linklist.h:49-55 | The first call links all nodes into the free list. |
| `LetterPool.Game.NewLetter` | ICS/pa2018_fall/game/include/adt/linklist.h:46-61 | A node from the free list; free and live nodes stay disjoint and the last node is never given away. |
| `LetterPool.Game.InsertFront` | ICS/pa2018_fall/game/include/adt/linklist.h:70-76 | The new node is linked in front of the list, both ways. |
| `LetterPool.Game.Unlink` | ICS/pa2018_fall/game/include/adt/linklist.h:77-82 | The neighbours of a node are linked to each other. |
| `LetterPool.Game.TakeOut` | ICS/pa2018_fall/game/include/adt/linklist.h:77-86 | A node leaves the list, wherever it stands, and becomes the first free one. |
| `LetterPool.Game.CreateLetter` | ICS/pa2018_fall/game/src/typing/effect.c:32-47 | One letter more in front, counted as created. |
| `LetterPool.Game.MoveLetter` | ICS/pa2018_fall/game/src/typing/effect.c:54-63 | One letter moves and is dropped and counted if it has left the screen. |
| `LetterPool.Game.UpdateLetters` | ICS/pa2018_fall/game/src/typing/effect.c:50-65 | Every letter moves once; those still on the screen stay in order, the others are counted as hits or misses; letters created = on the list + hits + misses. |
| `LetterPool.AllAccounted` | ICS/pa2018_fall/game/src/typing/effect.c:56-58 | Every letter stays, is hit or is missed. |
| `LetterPool.LeftCounted` | ICS/pa2018_fall/game/src/typing/effect.c:54-63 | Hits are the letters above the top of the screen, misses those whose lower edge is below it. |
| `LetterPool.StayingInOrder` | ICS/pa2018_fall/game/src/typing/effect.c:54-63 | The letters on the screen stay, all of them and in their order. |
| `Tunnel.Checksum` | 计网/尹浚宇_161130118_实验6/source code/vpn.c:216-236 | The complement of the ones' complement sum of section 1 of RFC 1071: for every length an int can hold, if and only if the sum of the words is less than 2^32; so for every buffer of up to 131074 bytes. |
| `Tunnel.TwoFolds` | 计网/尹浚宇_161130118_实验6/source code/vpn.c:232-233 | Two foldings are enough for any 32-bit sum. |
| `Tunnel.OnesSumIsFolded` | 计网/尹浚宇_161130118_实验6/source code/vpn.c:223-233 | The ones' complement sum is the plain sum, folded. |
| `Tunnel.OneByteTooMany` | 计网/尹浚宇_161130118_实验6/source code/vpn.c:218-233 | Every buffer of length n is summed right if and only if n <= 131074. |
| `Tunnel.RightIfItFits` | 计网/尹浚宇_161130118_实验6/source code/vpn.c:218-235 | Two foldings of what is left of the sum in 32 bits are right exactly if nothing was lost. |
| `Tunnel.FilledChecks` | 计网/尹浚宇_161130118_实验6/source code/vpn.c:216-236 | With the checksum filled in at an even place the whole sums up to all ones. |
| `Tunnel.Repack` | 计网/尹浚宇_161130118_实验6/source code/vpn.c:358-399 | The packet stands unchanged behind a new outer header that checks. Read back from the frame: both hardware addresses and the type, version 4 and five words, the length with the higher byte first, the process number, no fragments, 64 hops, protocol 4 (section 3.1 of RFC 2003), source and destination. |
| `Tunnel.Unpack` | 计网/尹浚宇_161130118_实验6/source code/vpn.c:415-438 | What stood behind the outer header stands behind the new Ethernet header, whose addresses and type are read back from the frame. |
| `Tunnel.ThroughTunnel` | 计网/尹浚宇_161130118_实验6/source code/vpn.c:358-449 | A packet of up to 512 bytes comes through byte for byte. |
| `Partitions.WaysAreAll` | 程序设计基础/作业/hw_5/161130118_4.cpp:4-12 | The set built along the recursion has all ways to put the apples on like plates and no others. |
| `Partitions.PutCounts` | 程序设计基础/作业/hw_5/161130118_4.cpp:4-12 | The recursion returns the size of that set. |
| `Partitions.PutIsTheNumberOfWays` | 程序设计基础/作业/hw_5/161130118_4.cpp:4-12 | So it returns the size of any set that holds exactly the ways. |
| `Partitions.SizeBoth` | 程序设计基础/作业/hw_5/161130118_4.cpp:11-11 | A way leaves the last plate empty or takes one apple from every plate, never both. |

## Left out

- Red-black tree: reading tokens from a file, output, the debugging checks, and freeing of nodes. A key that is already at an inner node makes the insertion loop turn for ever, and a search for an absent key runs off the tree; both are excluded by preconditions.
- RedBlackTree.RBT.Run: does not model adding a key that is already there at a leaf, because whether it is there depends on the shape of the tree; Insert covers it.
- Calculator: `PreTreat`, the messages of the `Check` functions, and complex arithmetic; number values and operators are uninterpreted, and the error value stands for itself.
- UserThreads.ThreadTable.PthreadExit: does not model an exit with no other live thread, for which the scan never ends (`ExitFindsSomeone`).
- Threads: registers, stacks and the switch itself; the table may have any size.
- ScopedSymbols.Table.PutStruct: does not model the size of the table of structures.
- Symbol table: types, freeing of symbols, and the length limit of a name.
- Translator.Translate: does not model functions, parameters, calls, arrays inside expressions and floats; `write` is a statement. Program variables that are never declared are reported by an earlier phase.
- Translator.Translator.TranslateExp: does not model calls, arrays and floats. A result without a place is nowhere in the model, while later stages of the program crash at it; see Compiler.Compile.
- Translator.Translator.TranslateSet: does not model assignment to an array element.
- Translator.Translator.TranslateCond: does not model a condition with an array access on top, which is not translated either.
- Translator.Translator.TranslateStmt: takes an operation without a place as one with no effect, which Compiler.Compile then does not compile.
- Compiler.Compile: does not model the passes left out of Compiler.Optimize; that the program stops at an operation without a place is taken from interCode.c:1609 and objectCode.c:198-205.
- Compiler.Optimize: does not model the passes between `deleteUselessLabel` and `optLabel` (triples, constants, merged assignments, arguments, returns, reads, writes, arrays, arithmetic), because they assume that a temporary is assigned or used once, which is not so for the value of a condition.
- Realisation and ObjectCode: integers are unbounded in both languages and in the machine, so that the width of a word and traps on overflow do not appear; the meaning of the four operators is the same function on both sides.
- ObjectCode.Generator.MakeAssign: does not model operands that are addresses.
- ObjectCode.Generator.MakeArith: does not model operands that are addresses or arrays; the four functions of the generator are one method with the operator as a parameter, and the hash table of slots is a map.
- ObjectCode.Generator.MakeObjectCodes: does not model labels, branches, calls, arguments and returns.
- ObjectCode: labels, branches, calls, arguments and returns, because slots are given out at the first textual use and the stack pointer agrees with the offset in straight-line code only. Immediate fields of any size are taken.
- ArrayAddress.OffsetCode: does not model the code of the indices themselves and the final addition of the base, because these are translated as any expression is; accesses with fewer indices than dimensions are left out, and so is the order in which a declaration records its dimensions.
- Matching: `std::sort` is replaced by any sorting of the same numbers.
- BufferedIO.Scanner.Refill: does not model a zero character in the input, which ends the buffer early.
- BufferedIO: formats whose conversions do not suit the arguments. Reads that give nothing are repeated by the program and do not appear.
- HourlyCounts.JobCounts: does not model lines with an hour that is no number from 0 to 23, which stop the job, and addresses with a `#`; the file names and the text layout of records are left out, and counts are unbounded.
- LetterPool.Game.CreateLetter: does not model the horizontal place and the key that is released.
- LetterPool: the search for the letter of a pressed key, the random choice of place, speed and letter (parameters here), and the width of floating-point numbers (reals here).
- Tunnel: sockets, tables, and the choice of hardware addresses, which are parameters. Frames longer than the temporary buffer are excluded.
- Partitions: a negative number of apples, for which the function returns 1.
