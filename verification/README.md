# Verified cores of csh and dd

This project models the hardest parts of two programs, the C shell (`bin/csh`) and `dd`
(`bin/dd`), and proves what they are for. Each part is a module or two of its own; code that
changes fields, links and buffers in place is modelled by classes and methods with the same
fields and loops, code made of recursive functions by functions.

* `VarTree.dfy`, `VarStore.dfy`: the variable and alias store, an AVL tree with parent links,
  a header and stored balance factors. The heap is tied to a ghost tree by `Rep`/`Zipped`
  (links and parent links), `Avl` (every `v_bal` is right height minus left height, in
  -1..1) and `Sorted` (the order by first character and then `Strcmp`). Every command keeps
  all three and does to the finite map `Vars()` what it says.
* `DdSpec.dfy`, `Dd.dfy`: dd's three conversions, chunk by chunk over shared buffers, with
  short and interrupted writes. However reads and writes are cut up, the bytes written are a
  whole-input function of the bytes read.
* `Ring.dfy`, `DirStack.dfy`: the directory stack, a circular doubly linked list with a dummy
  head that sits anywhere in it, refining the sequence read from `dcwd` along `di_prev`.
* `Jobs.dfy`: the job table, with the rings of `p_friends`, the current and previous job, job
  numbers and the lazy sweep, together with the directories the jobs count.
* `Parse.dfy`, `ParseRun.dfy`: the command parser over a list of words, as functions, and as the
  loops and calls that compute them. `ParsePrint.dfy`, `ParseRoundTrip.dfy`: the shell's printer
  of command trees, a printer that leaves nothing out, and their round trips.
  `ParseLost.dfy`: what comes back where the shell's printer drops something. `ParseClosed.dfy`:
  the trees the parser accepts are exactly the well-formed ones. `ParseEnds.dfy`: when the parser
  stays within its words.
* `InputBuffer.dfy`: the rewindable input in its two forms.
* `Braces.dfy`, `BraceWords.dfy`: brace expansion, in place in a growing vector of words, and
  which words it replaces by what.
* `Number.dfy`, `Expr.dfy`, `ExprTree.dfy`, `ExprValue.dfy`: numbers as strings, the expression
  evaluator with its ignore mode, the trees of expressions, and what the operators compute.
* `CommandHash.dfy`: the hashed command search.
* `Common.dfy`: what several parts use.

What the system decides is a parameter: how many bytes a read or write delivers, which child
changed state, whether `chdir` succeeds, what a directory lists, what a pattern matches. A
sequence of operations (`VarStore.Op`, `Jobs.Step`, `InputBuffer.Op`, `Dd.Event`) stands for a
run, and the `Run` and `Copy` methods speak about every run.

Where the code and its comments differ the code is followed: the comment on `syn3` names
`test` among the keywords, the code does not treat it as one.

Three properties do not hold on all inputs and are stated with their condition:

* The hashed search misses a command in a directory that can be searched but not listed:
  `CommandHash.HashedIsPlain` says exactly when the two searches agree, and
  `CommandHash.Unlisted` shows one that does not.
* `syn3` takes the word after a redirection operator for its name even if it is a closing
  parenthesis, and can then find an opening one whose end it never sees, as in the words `>`
  `)` `(` `a`; its next walk leaves the words it was given. `ParseEnds.LeavesIff` says for
  every call exactly when this happens, `ParseEnds.StaysSyntax` gives two conditions on the
  whole input under which it never does, and `ParseEnds.LeavesList` shows it happening.
* The shell's printer drops marks, so not every tree comes back from its words:
  `ParseLost.LostComesBack` says what does, and `ParseLost.RoundTripIff` for which trees it
  is the tree itself.

## Model

| member | source | states |
|---|---|---|
| Names.CompareOrder | bin/csh/set.c:456-460 | the comparison by first character and then Strcmp is zero only for equal names and is antisymmetric |
| Names.LessTransitive | bin/csh/str.c:276-295 | and transitive, so that it is a strict total order although the two stages place the terminating NUL differently |
| Names.LessSays | bin/csh/set.c:456-460 | which of two names comes first: at the first place where they differ the smaller character decides, and a name comes before the longer ones that begin with it |
| VarTree.RebalanceRightCorrect | bin/csh/set.c:735-767 | single and double rotation to the left, for every stored balance: the result is balanced with right factors, and its factor tells whether its height changed |
| VarTree.RebalanceLeftCorrect | bin/csh/set.c:768-800 | the mirror image |
| VarTree.RebalanceRightInOrder | bin/csh/set.c:735-767 | rotations keep the entries and their order |
| VarTree.RebalanceLeftInOrder | bin/csh/set.c:768-800 | rotations keep the entries and their order |
| VarTree.RepairStep | bin/csh/set.c:801-807 | the early exits are right: after each step either the whole path is balanced or one more level waits for the same repair |
| VarTree.AvlPlug | bin/csh/set.c:715-808 | a tree is balanced if and only if the part in hand and the path above it are |
| VarTree.AvlIsDense | bin/csh/set.c:715-808 | a balanced tree of height h holds at least Fib(h+2)-1 variables |
| VarTree.SearchIsShort | bin/csh/set.c:449-464 | a path of k steps needs Fib(k+2)-1 variables, so k is logarithmic in their number |
| VarStore.RotateLeftAt | bin/csh/set.c:687-692 | the rotation on links and parent links is the rotation of the tree they represent |
| VarStore.RotateRightAt | bin/csh/set.c:681-686 | the mirror image |
| VarStore.Balance | bin/csh/set.c:715-808 | from any place where one level was gained or lost, the loop restores every link, parent link and balance factor and keeps the entries in order |
| VarStore.Store.AdrOf1 | bin/csh/set.c:449-464 | finds a node exactly if the name is in the map, with the value last stored, in logarithmically many turns |
| VarStore.Store.Search | bin/csh/set.c:503-520 | the descent ends at the name or at the one hole where it belongs |
| VarStore.Store.Setq | bin/csh/set.c:503-529 | the tree stays valid; the name has the given words in their order, each character without its quote bit, and every other name what it had |
| VarStore.Store.UnsetV1 | bin/csh/set.c:578-619 | deletion by copying the predecessor keeps the tree valid and removes that node's key and no other |
| VarStore.Madrof | bin/csh/set.c:433-447 | returns a node whose name matches, and null only if none does |
| VarStore.Store.UnsetV | bin/csh/set.c:567-576 | removes one name, and reports whether it was there |
| VarStore.Store.Unset1 | bin/csh/set.c:550-565 | terminates, having removed exactly the names that match one of the patterns |
| VarStore.Plist | bin/csh/set.c:810-844 | the walk by parent links lists every variable once, in order |
| VarStore.Store.Run | bin/csh/set.c:503-619 | over any sequence of commands the tree stays valid, the map is what replaying the commands gives, and every name is as the last command that touched it left it |
| VarStore.LastDecides | bin/csh/set.c:503-619 | the last command that sets or removes a name decides its value, words and characters included |
| VarStore.Untouched | bin/csh/set.c:503-619 | a name no command touches keeps its value |
| DdSpec.BlockedIsIdeal | bin/dd/conv.c:99-200 | what block writes is the per-line form if and only if what follows the last newline has at least cbsz bytes or is left as it is by the table |
| DdSpec.CompleteIsIdeal | bin/dd/conv.c:99-200 | so it is without a table, and for every input that is empty or ends in a newline |
| DdSpec.LastLineKept | bin/dd/conv.c:182-200 | one letter without a newline that the table would change is written unchanged |
| DdSpec.OneLine | bin/dd/conv.c:99-260 | a letter and a newline are blocked into the letter and a blank, and come back, byte for byte |
| DdSpec.BlockUnblock | bin/dd/conv.c:99-260 | unblocking what block wrote gives the text back if and only if every line ends in a newline, fits and has no blanks at its end |
| DdSpec.LineTakenOwes | bin/dd/conv.c:130-170 | taking one line, wherever the input is cut, splits the whole result into its record and the result of the rest, truncation included |
| Dd.Copier.WriteAll | bin/dd/dd.c:354-389 | whatever the short and interrupted writes, the bytes go out once and in order; it succeeds if and only if every call of write was good: it wrote something or was interrupted, and on a tape it wrote everything |
| Dd.Copier.DdOut | bin/dd/dd.c:332-395 | what is written and what stays buffered are together what was buffered, and it succeeds if and only if every write was good |
| Dd.Copier.Def | bin/dd/conv.c:56-80 | the new bytes are translated once and none is lost or moved, within a buffer of ibs+obs-1 bytes; it succeeds if and only if every write was good |
| Dd.Copier.BlockInput | bin/dd/conv.c:99-180 | a chunk leaves what will have been written in the end as it was, partial lines and the truncation state included; it succeeds if and only if every write was good |
| Dd.Copier.BlockClose | bin/dd/conv.c:182-200 | the unterminated last line is padded to a record |
| Dd.Copier.UnblockInput | bin/dd/conv.c:209-240 | the same for records cut anywhere, with and without a table |
| Dd.Copier.UnblockClose | bin/dd/conv.c:242-260 | a short last record is a line |
| Dd.Copier.Copy | bin/dd/dd.c:216-330 | for every ibs, obs, cbsz, table, way of cutting the reads and pattern of writes: a copy succeeds if and only if no read failed that ends it and every write was good, so it does whenever no write fails; one that succeeds wrote exactly the conversion of the input read, one that fails a prefix of it |
| Dd.GatherStops | bin/dd/dd.c:221-265 | the input a copy reads is the data of the reads up to the first that ends it, in order: failed ones are passed over under noerror and end the copy with an error otherwise, an empty one is the end, and the limit on blocks counts those with data |
| Dd.Copier.WritableIsGood | bin/dd/dd.c:354-389 | if no write fails, and on a tape none is short, every call made is good |
| Dd.ThereAndBack | bin/dd/conv.c:99-260 | a text blocked by one copy and unblocked by another, each cut up in its own way, comes back if and only if it is tidy; both copies succeed if no read or write fails |
| Dd.Copier.constructor | bin/dd/dd.c:140-156 | the buffer sizes, and that everything is still to come |
| DirStack.Dirs.constructor | bin/csh/dir.c:129-135 | one entry, in a ring with the dummy head |
| DirStack.Dirs.Dfind | bin/csh/dir.c:541-565 | the n-th entry of the stack, wherever the dummy head sits, or the error when there is none |
| DirStack.Dirs.Cd | bin/csh/dir.c:335-381 | cd replaces the head, cd +n drops it and rotates; a failure changes nothing |
| DirStack.Dirs.Pushd | bin/csh/dir.c:486-536 | swaps the first two, rotates, or prepends; nothing is freed |
| DirStack.Dirs.Popd | bin/csh/dir.c:571-608 | removes the head or the n-th entry |
| DirStack.Dirs.Dfree | bin/csh/dir.c:613-625 | a node that is counted is kept out of the ring with null links, another is freed, and never twice |
| DirStack.Dirs.CountDown | bin/csh/proc.c:236-239 | a node is freed when its last holder lets go and it is out of the ring, which its null link tells |
| Jobs.OneRing | bin/csh/proc.c:441-506 | the job of a live process is one ring with exactly one leader, one number and one id, which no process outside it has |
| Jobs.LeaderOf | bin/csh/proc.c:391-392 | following p_friends ends at the leader |
| Jobs.Table.Pgetcurr | bin/csh/proc.c:1179-1195 | the most recent candidate that is stopped, or else the most recent one |
| Jobs.Table.Pclrcurr | bin/csh/proc.c:414-430 | the job loses its marks; each mark that is chosen anew is null only if there is no other live leader to take it, and otherwise the most recent stopped one, or else the most recent; the others stay |
| Jobs.Table.Pflush | bin/csh/proc.c:380-408 | the whole job and no other is flagged, pmaxindex is the largest number again, and if it had marks they are chosen anew as by Pclrcurr |
| Jobs.Table.Pflushall | bin/csh/proc.c:365-374 | every process is flagged and no job is current or previous |
| Jobs.Table.FreeIndex | bin/csh/proc.c:482-497 | one more than the largest number in use while that is less than 9, and else the smallest one not in use; at most 9 or the number of live jobs with the new one |
| Jobs.Table.Palloc | bin/csh/proc.c:441-506 | the new process joins the ring of the job being started or leads a new one, running, in the foreground as asked, with a new number, the marks that were free and a hold on dcwd |
| Jobs.Table.Pchild | bin/csh/proc.c:79-197 | what a change of one child does, for every state of the other processes of its job: if it stopped, the job is current and the job that was current is previous; if it ended, the marks are chosen anew as by Pclrcurr; every flag of every process is told |
| Jobs.Table.Pstart | bin/csh/proc.c:1080-1103 | every process that was running or stopped runs; in the background the job gives up its marks, which are chosen anew as by Pclrcurr |
| Jobs.Table.Pendjob | bin/csh/proc.c:624-639 | the next process starts a new job |
| Jobs.Table.Sweep | bin/csh/proc.c:223-243 | exactly the flagged processes go, whole jobs are left, and every directory is counted as often as it is held |
| Jobs.FreedOrHeld | bin/csh/proc.c:236-239 | a freed directory is out of the stack and held by no process; one kept out of the stack is held by a leader |
| Jobs.Table.Execute | bin/csh/proc.c:441-506 | each step of jobs or directories keeps the table and the stack in order and loses no directory node |
| Jobs.Table.Run | bin/csh/proc.c:223-243 | so does every interleaving: rings, numbers, pmaxindex and marks are in order, and every directory node ever made, during the run too, is in the ring, held by a leader, or freed once |
| Jobs.CountedCd | bin/csh/dir.c:335-381 | cd leaves the counts right and accounts for every node |
| Jobs.CountedPushd | bin/csh/dir.c:486-536 | pushd leaves the counts right and accounts for every node |
| Jobs.CountedPopd | bin/csh/dir.c:571-608 | popd leaves the counts right and accounts for every node |
| Parse.ScanCommand | bin/csh/parse.c:499-650 | both passes of syn3 over an array of slots, with every store within it, compute what the functions of the parser say |
| Parse.SlotsSuffice | bin/csh/parse.c:523-652 | for every list of words, context and error, the first pass counts at least as many slots as the second stores words |
| Parse.SlotsNatural | bin/csh/parse.c:523-556 | the count is never negative, so its correction to 0 is never used |
| ParseRun.RunSyntax | bin/csh/parse.c:228-240 | the parser as it runs computes the functions the other results are about, for all words |
| ParseRun.RunSyn0 | bin/csh/parse.c:247-308 | the same from syn0 on, with the walk to an ampersand, the parentheses put around a list in the background, and the check of parentheses |
| ParseRun.FindAmpersand | bin/csh/parse.c:256-279 | the walk, with the ampersands that belong to a pipe or a redirection skipped and the first error kept |
| ParseRun.FindSplit | bin/csh/parse.c:325-338 | the walk of syn1 to syn2 to the first separator outside parentheses |
| ParseRun.RunSyn2 | bin/csh/parse.c:437-477 | pipes, with and without `&` |
| ParseRun.RunSyn3 | bin/csh/parse.c:488-665 | commands and parentheses, through the array of slots |
| ParseRoundTrip.ShowRoundTrip | bin/csh/parse.c:228-665 | every well-formed tree, with background commands, pipes of both outputs, `>!`, here-documents, nested parentheses and lists that end in a separator, is read back from its words with no error, and F_NOFORK is on exactly those commands that a closing parenthesis follows |
| ParseRoundTrip.RoundTrip | bin/csh/proc.c:508-565 | the same from the words padd writes, for every well-formed tree of which padd writes everything |
| ParseRoundTrip.GroupBehind | bin/csh/parse.c:285-303 | a list, conjunction or disjunction followed by `&` is one command in parentheses with F_AMPERSAND and F_NOINTERRUPT, and whatever follows is read as it would be alone |
| ParseRoundTrip.GroupRoundTrip | bin/csh/parse.c:285-303 | so such a list, and any well-formed tree after it or none, come back as one list with no error |
| ParseClosed.ClosedSyntax | bin/csh/parse.c:228-665 | whatever the words, if there is no error the tree is a well-formed one, or a list of them with lists put in the background as a whole, or the words are all separators: every misplaced parenthesis, missing or ambiguous redirection, here-document in parentheses and empty command is an error |
| ParseClosed.AllAccepted | bin/csh/parse.c:228-665 | and every such tree is the tree of some words, up to F_NOFORK |
| ParseClosed.SpelledAgain | bin/csh/parse.c:228-665 | so whatever was parsed without an error and is written out again is parsed as it was |
| ParseClosed.KeepsSyntax | bin/csh/parse.c:228-665 | an error once found is never lost |
| ParseClosed.CallAccepted | bin/csh/parse.c:501-521 | a command may be followed by a word in parentheses if and only if it is `@`, `exit`, `foreach`, `if`, `set`, `switch` or `while` |
| ParseLost.LostComesBack | bin/csh/proc.c:508-565 | of every well-formed tree from which padd drops nothing but the marks of background commands, of pipes of both outputs and of `>!`, the tree without those marks comes back, with no error |
| ParseLost.RoundTripIff | bin/csh/proc.c:508-565 | so for these trees the tree itself comes back if and only if padd leaves nothing out |
| ParseLost.EmptyLeftIsLost | bin/csh/proc.c:527-551 | a list with an empty left side, whose right side padd prints in full, never comes back: the right side does |
| ParseLost.QuoteIsLost | bin/csh/proc.c:567-577 | a word that begins with a quoted null comes back without it |
| ParseRoundTrip.Read3 | bin/csh/parse.c:488-665 | commands and parentheses with redirections, in every context of a pipe |
| ParseRoundTrip.Read2 | bin/csh/parse.c:437-477 | pipes |
| ParsePrint.Shows0 | bin/csh/parse.c:247-308 | the words of a tree have matching parentheses and do not start with a separator |
| ParsePrint.PrintIsShow | bin/csh/proc.c:508-565 | padd writes everything of a tree without background commands, pipes of both outputs, `>!` and empty parts |
| ParseEnds.StaysSyntax | bin/csh/parse.c:228-665 | no walk leaves the words it was given if no closing parenthesis comes before its opening one, or if none stands where a redirection has its name, whatever else the words are |
| ParseEnds.LeavesIff | bin/csh/parse.c:562-656 | syn3 leaves the words it was given if and only if more closing than opening parentheses are taken for the names of redirections |
| ParseEnds.PassEnds | bin/csh/parse.c:562-650 | the depth at which the second pass ends, from the words alone |
| ParseEnds.DepthBut | bin/csh/parse.c:562-650 | that depth is the depth of the words but for the names of redirections |
| ParseEnds.NamesTame | bin/csh/parse.c:584-624 | without a closing parenthesis where a name should be, the names open at least as many as they close |
| ParseEnds.TracksPass | bin/csh/parse.c:562-650 | if no closing parenthesis comes before its opening one, the parentheses syn3 finds are a matching pair, whatever the redirections between skip |
| ParseEnds.LeavesList | bin/csh/parse.c:652-656 | four words for which the second end is not found |
| InputBuffer.Window.Bgetc | bin/csh/lex.c:1438-1470 | the character of the file at fseekp; -1 if and only if it is not in the window and a read delivers nothing |
| InputBuffer.Window.Run | bin/csh/lex.c:1438-1610 | any mix of reading, telling and seeking gives the answers of a sequence with a cursor |
| InputBuffer.Blocks.Bgetc | bin/csh/lex.c:1471-1545 | the same for the blocks, with and without a terminal; -1 if and only if all that was kept has been read and a read delivers nothing |
| InputBuffer.Blocks.Bfree | bin/csh/lex.c:1547-1565 | dropping blocks and rebasing moves neither the cursor nor any later character |
| InputBuffer.Blocks.Run | bin/csh/lex.c:1438-1610 | the same answers from the blocks, dropping included |
| InputBuffer.OneAnswer | bin/csh/lex.c:1438-1610 | while no read fails there is one way to answer, so the two forms cannot be told apart |
| Braces.GlobBrace | bin/csh/glob.c:126-215 | the vector holds one word for each piece, or the error names the missing character; no store is outside the vector |
| Braces.BraceParts | bin/csh/glob.c:140-209 | the closing brace is the matching one; the pieces joined by commas are what is between the braces, and each is even and has no comma of its own; each word is the prefix, a piece and the suffix |
| Braces.FewerBraces | bin/csh/glob.c:126-215 | every word made has fewer opening braces |
| Braces.ExpBrace | bin/csh/glob.c:218-282 | the loop ends, and the vector holds the recursive expansions of its words from left to right, or the first error among them |
| Braces.Splice | bin/csh/glob.c:265-274 | the words of one vector take the place of one word of the other |
| Braces.ExpandTwice | bin/csh/glob.c:218-282 | nothing is left to expand in the result |
| BraceWords.SplitExpands | bin/csh/glob.c:140-215 | a word made of a part without a brace, pieces that are even and without commas of their own between braces, and any rest, stands for what the words with each piece in place of the braces stand for, in order; only `{}` does not |
| BraceWords.Alone | bin/csh/glob.c:236-240 | a word without a brace, `{` and `{}` stand for themselves |
| BraceWords.NoSplitMisses | bin/csh/glob.c:144-166 | every other word that cannot be split so is an error: a bracket is missing if one is left open after the first brace, and else a brace |
| Number.GetPut | bin/csh/set.c:356-420 | every 32-bit int survives putn and getn, the most negative one too |
| Number.GetnLoop | bin/csh/set.c:398-420 | the loop computes what the function of the round trip says |
| Number.GetnReads | bin/csh/set.c:398-420 | perhaps a plus, perhaps a minus, and digits are read as what the digits mean in decimal, with that sign, within 32 bits |
| Number.GetnOnly | bin/csh/set.c:398-420 | and no other word is read as a number |
| Number.PutnWrites | bin/csh/set.c:356-396 | the decimal digits of the number without zeros in front, after a minus if it is negative |
| ExprTree.Evaluates | bin/csh/exp.c:97-459 | a result without an error is the value of the tree of the words consumed: operators and operands are what their words say, precedence and right associativity are kept, globbing is off exactly on the right of a match; in the value numbers are numbers, and the right side of a decided operator has no part |
| ExprValue.TopComputes | bin/csh/exp.c:97-415 | expr on words whose tree is an operator over numbers gives what the operator says in terms of integers: sums, differences and products modulo 2^32, quotients and remainders with the sign of the dividend, comparisons, shifts as multiplication and floor division, and the bit operators bit by bit |
| ExprValue.NodeComputes | bin/csh/exp.c:97-415 | the same for the value of every such part of any tree |
| ExprValue.Calculates | bin/csh/exp.c:97-415 | a number, any operator and a number written out evaluate to just that, and to an error if it divides by zero |
| ExprValue.DividesNothing | bin/csh/exp.c:398-411 | the errors of a division and of a remainder by zero |
| ExprValue.PrefixComputes | bin/csh/exp.c:428-448 | `!` is 1 for 0 and 0 for any other number, `~` has every bit turned over |
| ExprValue.BitsDecide | bin/csh/exp.c:143-209 | there is one 32-bit int with the bits the bit operators ask for |
| ExprValue.EgetnReads | bin/csh/exp.c:679-686 | perhaps a minus, and digits, or nothing, are a number in an expression |
| ExprValue.EgetnOnly | bin/csh/exp.c:679-686 | and nothing else is |
| ExprValue.OperatorsAre | bin/csh/exp.c:630-677 | the words isa takes for an operator of any kind |
| ExprValue.InquiriesAre | bin/csh/exp.c:492-498 | the words of two characters that ask about a file |
| ExprTree.OneTree | bin/csh/exp.c:97-459 | words have at most one such tree, and it ends at one place |
| ExprTree.Parses | bin/csh/exp.c:97-459 | every such tree is the one read from its words, at every level of precedence |
| ExprTree.EvaluatesSound | bin/csh/exp.c:97-459 | if every part of the tree has a value of the kind its place asks for, no error is raised, ignored parts included, and the result is the value of the tree |
| Expr.IgnoringTakesTheSame | bin/csh/exp.c:97-459 | where the evaluator raises no error it raises none when ignoring, and consumes the same words |
| Expr.Follows0 | bin/csh/exp.c:97-117 | whether ignoring or not, the evaluator takes the words of the tree, and when not ignoring has its value |
| ExprTree.Reads0 | bin/csh/exp.c:97-459 | what is read from words is a tree of them in that sense, and ends where no operator goes on with it |
| Expr.CarriedNumber | bin/csh/exp.c:679-686 | a number carried as a string is read back as itself |
| CommandHash.Hashname | bin/csh/exec.c:503-511 | the loop computes the hash of a name |
| CommandHash.HashIs | bin/csh/exec.c:85-94 | the hash of a name is the number its characters make in base 243, modulo 8192 |
| CommandHash.Table.Bis | bin/csh/exec.c:87-94 | one bit is set and no other changes, every index in range |
| CommandHash.Table.Dohash | bin/csh/exec.c:440-478 | a bit is set if and only if an entry of an absolute directory of the path that could be listed falls on it |
| CommandHash.Table.Iscommand | bin/csh/exec.c:514-557 | the first place where the command is and that the table does not rule out |
| CommandHash.SearchMeans | bin/csh/exec.c:514-557 | a name with a slash, or any name without a path, is looked for as it is; any other is found in the first directory of the path where it can be executed, "" and "." being the working directory, but for those starting with a slash whose bit is clear |
| CommandHash.HashedIsPlain | bin/csh/exec.c:440-557 | with a fresh table it is the place a search without hashing gives, if and only if the directory there is relative, could be listed, or shares its bit with an entry that was listed |
| CommandHash.ListedPathMissesNothing | bin/csh/exec.c:440-557 | so no command is missed when every absolute directory of the path can be listed |
| CommandHash.UnhashedIsPlain | bin/csh/exec.c:514-557 | without a table, or for a name with a slash, it is the plain search |
| CommandHash.Unlisted | bin/csh/exec.c:457-459 | a directory that cannot be listed, whose command is missed |

## Left out

- System calls, signals, terminal groups, fork and exec, printing, memory exhaustion: reads,
  writes and child states are inputs, and each section run with signals held is one step.
- psavejob/prestjob, pnote, pjwait, the job commands and times: not among the steps of the table.
- dcanon, dfollow, dgoto: the new name of a directory is an input.
- pmatch and globbing: matching is an arbitrary predicate, globbing an arbitrary function.
- Alias substitution in the parser (asyntax, asyn0, asyn3), freesyn, the lexer and history.
- dd's bs, sync, osync and swab, its statistics, its arguments and its tables; several input files.
- btoeof, tty completion, and input from aliases and eval in bgetc's callers.
- doexec's own search and hits/misses; tables that are stale.
- VarStore.Store.Setq: a new node gets its value before balancing rather than after it; the state at the end is the same.
- Dd.Copier.UnblockInput: the expression by which unblock translates a byte leaves the order of its two accesses open in C; the model moves the place before it reads.
- Dd.Copier.Copy: an interrupted write is retried as often as the given pattern says, not forever; which calls are made is in the trace `calls`, and on a tape the exact condition speaks of that trace.
- Jobs.Table.Execute: a fork that would reuse the pid of a process in the table is not a step, and p_next is a sequence rather than links.
- Jobs.Table.Pchild: the flags for times and reasons, and unsetting $child.
- ParseRoundTrip.RoundTrip: speaks of trees of which padd writes everything. ParseLost.RoundTripIff does not speak of trees with a list whose left side is empty, a word that begins with a quoted null, an output file `!`, or an output redirected in a pipe that takes both outputs. The limit on the printed length is not modelled.
- ParseEnds.StaysSyntax: two sufficient conditions on whole inputs; the exact one, ParseEnds.LeavesIff, is for each call of syn3. What the walk does after it has left its words is not modelled.
- InputBuffer.Window.Run: the file does not change while it is read; a position told before blocks are dropped is not used after it.
- Braces.ExpBrace: the fixed size of the buffer in which each word is put together is not modelled.
- ExprTree.Evaluates: says nothing of runs that end in an error (ExprTree.EvaluatesSound says when there is none); a word that is no number is an error even where it is ignored. Signed overflow wraps around, and a shift by less than 0 or more than 31 is a parameter.
- CommandHash.HashedIsPlain: assumes that what can be executed in an absolute directory is in its listing.
