# jigsaw: a verified model of the crossword grid search

jigsaw fills a 22 x 22 grid (a one-cell border of stars included) with
words from a word list, so that every run of letters across and down is a
word of the list. This project is a Dafny model of its search engine
(`jigsaw.c`), with the properties the program relies on proved about the
model.

The modules follow the parts of the program:

- `Consts` (consts.dfy): the configuration constants, the cell codes
  (letters 1..26, `STAR` = 28 for the delimiter and the border, `FREE` = 31
  for an empty cell) and the geometry of the grid (`xy`, its column, row,
  level and mirror cell).
- `Words` (words.dfy): the encoding of the word list in `load_words`. A
  line's leading run of letters becomes `STAR`, the letter codes, `STAR`.
  The load fails on a word that is too long or on too many words.
- `Links` (links.dfy): the link table of `load_words`. Every 1-, 2- and
  3-code window of every word is entered, by head insertion, in the list of
  its key. `BuildLinks` is proved to build a table that is both sound and
  complete.
- `Grid` (grid.dfy): the grid state (`struct node`) as a value. It also
  holds the legality test of `test_hword`/`test_vword`.
- `Place` (place.dfy): the check phase of `place_hword`/`place_vword`. That
  is the scan that records the crossings a word forms, and the confirmation
  of each crossing against the link table.
- `Write` (write.dfy): the write phase of `place_hword`/`place_vword`. It
  covers the copy of the node, the cell-by-cell write with the counters,
  the incremental hash, the hints, the swap-remove of pending crossings,
  the hotspot and the symmetry anchor.
- `Frontier` (frontier.dfy): the score buckets of `add_node` and the
  gathering of a round.
- `Hotspot` (hotspot.dfy): the `xy2level`/`level2xy` tables and the initial
  grid of `main`, and the diagonal walk of a level.
- `Trace` (trace.dfy): a ghost record of every placement the search
  attempts and why. It also defines what the sweep of `scan_grid` may do to
  the grid it scans.
- `Sweep` (sweep.dfy): the three passes of the sweep of `scan_grid` as
  ghost functions. For each pass they give the exact sequence of attempts
  down a level's diagonal, and for the fragment pass the pruning it does.
- `SweepLaws` (sweeplaws.dfy): every attempt of the passes is an attempt of
  the sweep, through the scanned letter, on the grid or a pruning of it;
  and a fragment pass that finds nothing fills its level.
- `Levels` (levels.dfy): one level of the sweep, pass after pass, and the
  whole sweep, level after level, with where it leaves the hotspot.
- `Search` (search.dfy): the engine as a class whose fields are the
  globals the source updates in place. These are the frontier
  (`scores`), the free list, the counters and the best grid. The class
  holds `mallocnode`, `add_node`, `scan_grid`, `kick_ass` and the starting
  words of `main`.
- `Jigsaw` (jigsaw.dfy): `main` from the word list to the end of the
  rounds.

The central invariants are these.

- A grid the engine holds (`Grid.NodeOk`) has a star on every border cell
  and a code in every cell. Its worklist fits its arrays, its words are
  distinct words of the list, and its hash is a 32-bit value.
- A bucket of the frontier (`Frontier.BucketOk`) is sorted by score, then
  by hash, highest first. It holds only grids of its own score band.
- Every grid in the frontier holds at least `floor` words. `floor` is a
  ghost counter that goes up by one every round. Since a grid cannot hold
  more words than the list, `kick_ass` ends after at most |words| + 1
  rounds unless the timer stops it first.

## Model

| member | source | states |
|---|---|---|
| Words.LetterCode | jigsaw.c:864 | a letter's code is in 1..26, upper case folded to lower case first |
| Words.Encoded | jigsaw.c:861-867 | the encoding of a line is delimited by stars, is 2 longer than the line's leading run of letters, and holds each letter's code in order |
| Words.EncodeLine | jigsaw.c:861-867 | the copy loop produces exactly the encoding of the line |
| Words.KeptWords | jigsaw.c:872-878 | at most one word per line is kept, and every kept word is delimited with at least one letter |
| Words.LoadWords | jigsaw.c:855-879 | the load succeeds exactly when no line is too long and at most WORDMAX-1 words are kept; it then returns the kept words in input order, each of length 3..WORDLENMAX-2; each failure names its cause |
| Words.AddLine | jigsaw.c:861-878 | one line fails as too long exactly when its encoding is over the limit, fails as one word too many exactly when it would be kept with WORDMAX-1 words already loaded, and otherwise appends its encoding exactly when it is kept |
| Words.KeptWordsStep | jigsaw.c:872-878 | reading one more line appends its encoding to the kept words when it is kept and nothing otherwise |
| Words.KeptWordsGrows | jigsaw.c:873-877 | reading more lines never lowers the number of kept words, so the count that is too many at some line is too many for the whole list |
| Words.KeptWordsBounded | jigsaw.c:868-871 | a list without over-long lines yields only words within the length limit |
| Links.ReachableBelow | jigsaw.c:899-902 | every entry of a chain is a real entry (index 1 or more) no newer than the head, so chains end at the null link 0 |
| Links.BuildLinks | jigsaw.c:889-922 | the built table is sound (every entry on the chain of a key is a window of its word with that key, and each entry links to an older one) and complete (every window of every word is on the chain of its key) |
| Links.EnterRow | jigsaw.c:895-921 | one row of the build keeps the table sound, makes it complete up to the row, and reports done exactly when no word has a window at that position |
| Links.Enter | jigsaw.c:899-902 | a head insertion appends one entry that links to the old head, and keeps the table sound and complete so far |
| Links.ChainSound | jigsaw.c:893-921 | every entry reachable from a sound chain is a window with the chain's key |
| Links.Links3Sound | jigsaw.c:899-902 | every entry reachable from links3[a][b][c] is a window a, b, c of its word |
| Links.Links2Sound | jigsaw.c:907-910 | every entry reachable from links2[a][b] is a window a, b of its word |
| Links.Links1Sound | jigsaw.c:915-918 | every entry reachable from links1[c] points at a letter c of its word, never at a delimiter |
| Consts.InteriorNeighbours | jigsaw.c:400 | an interior cell has all four neighbours inside the grid |
| Grid.FreeIsInterior | jigsaw.c:303 | a free cell is never on the border, so the neighbour reads of the legality test stay in the grid |
| Grid.WordCode | jigsaw.c:862-865 | a word's codes are letters except the two delimiting stars at its ends |
| Grid.CrossHead | jigsaw.c:306-311 | the list head the test reads for a crossing (2-code when a neighbour is free, 3-code otherwise) indexes the link table |
| Grid.CodesOkAll | jigsaw.c:296-314 | checking the codes in order, stopping at the first failure, accepts exactly when every code may go to its cell |
| Place.CrossingAt | jigsaw.c:403-412 | a recorded crossing has the orientation across the word and a head inside the link table |
| Place.CrossingsRange | jigsaw.c:392-416 | every crossing the scan records has the orientation across the word and a head inside the link table |
| Place.CrossingsPrefix | jigsaw.c:413-414 | a prefix of the word forms no more crossings than the whole word, so a worklist full part-way is full for the word |
| Place.ScanStep | jigsaw.c:393-416 | a code that may go to its cell extends the checked prefix, and the crossing it forms, if any, is appended to the list in scan order |
| Place.ScanCell | jigsaw.c:393-415 | one step of the scan accepts exactly when the code may go to its cell, and reports a crossing exactly when a new letter touches a letter across |
| Place.ScanCrossings | jigsaw.c:392-416 | the scan succeeds exactly when every code may go to its cell and the crossings fit in the worklist; it then returns all crossings in scan order |
| Place.FirstFit | jigsaw.c:420-425 | the confirmation of a chain is 0 or an entry no newer than the chain's head |
| Place.FirstFitSpec | jigsaw.c:419-427 | a nonzero confirmation is on the chain and its word passes the test, every earlier entry of the chain fails, and 0 means every entry fails |
| Place.FindFit | jigsaw.c:420-424 | the walk down a chain stops at its first entry whose word passes the test in the crossing orientation |
| Place.ConfirmCrossings | jigsaw.c:418-427 | confirmation succeeds exactly when every recorded crossing has a passing entry, and then replaces each by its first passing entry |
| Place.CrossingsOf | jigsaw.c:392-416 | every crossing of a word in a grid has the orientation across the word and a head in the table |
| Place.Confirmed | jigsaw.c:419-426 | confirming a list keeps its length and confirms each entry in place |
| Place.NewEntries | jigsaw.c:413-427 | an accepted word's new worklist entries fit the arrays, are across the word and name real link entries |
| Place.CheckPlacement | jigsaw.c:379-427 | the check accepts exactly when the word is unplaced, fits the grid, keeps the symmetry end cells free of letters, may go to every cell, fits the worklist and has every crossing confirmed; it then returns the confirmed crossings |
| Write.FindPendingSpec | jigsaw.c:444-450 | the search for a pending entry stops at the first pending entry of the word's orientation at the cell, or at the end |
| Write.SwapMultiset | jigsaw.c:446-448 | overwriting entry i by the last and dropping the last removes exactly entry i |
| Write.SwapRemove | jigsaw.c:444-450 | the swap-remove takes out one entry exactly when a pending entry of the orientation exists at the cell, and only reorders the rest |
| Write.RemovePendingEntry | jigsaw.c:444-450 | the loop with its early break is the swap-remove of the first pending entry |
| Write.WriteCode | jigsaw.c:440-461 | one iteration of the copy loop is one step of the write |
| Write.WriteWord | jigsaw.c:437-462 | the copy loop writes the whole word, step by step |
| Write.WriteCellGrid | jigsaw.c:461 | one step puts the code in its cell |
| Write.WriteCellAttr | jigsaw.c:441-455 | one step changes only the hints of its own cell and keeps its border bit |
| Write.WriteCellCounts | jigsaw.c:453-459 | a new letter adds to numchar and the hash, a letter on a letter adds to numconn, a star to neither |
| Write.WriteCellHash | jigsaw.c:454 | a new letter adds its term to the hash modulo 2^32 |
| Write.WriteCellAdj | jigsaw.c:443-450 | one step removes at most the pending entry of the word's own orientation at its cell |
| Write.WriteToOff | jigsaw.c:437-462 | writing leaves every cell outside the word unchanged |
| Write.WriteToWord | jigsaw.c:437-462 | after writing, the word's cells hold its codes |
| Write.WriteToBorder | jigsaw.c:441-455 | writing never changes a border bit |
| Write.CellBeforeWrite | jigsaw.c:453 | the free-cell test of step k sees the cell as it was in the input grid |
| Write.WriteToCounts | jigsaw.c:452-459 | numchar grows by the new letters and numchar + numconn by all letters written |
| Write.StepCounts | jigsaw.c:452-459 | each step counts its code as a new letter, a crossing, or neither |
| Write.FoldHashSum | jigsaw.c:454 | adding the terms modulo 2^32 one by one equals adding their sum once |
| Write.WriteToHash | jigsaw.c:454 | the hash after writing is the running modular sum of the new letters' terms |
| Write.WriteToAttr | jigsaw.c:441-455 | after writing, each cell of the word carries its input hints, updated for a letter: the word's orientation cleared and, on a free cell, the orientation across added |
| Write.StepHash | jigsaw.c:454 | each step keeps the hash equal to the running sum |
| Write.WrittenHash | jigsaw.c:454 | writing a word adds the sum of its new letters' terms to the hash, modulo 2^32 |
| Write.WriteToAdj | jigsaw.c:443-450 | writing only takes entries out of the worklist, at most one per letter, each pending in the word's orientation at one of its letters |
| Write.FreshBound | jigsaw.c:453-459 | the new letters are no more than the letters |
| Write.FreshCounted | jigsaw.c:453-456 | a letter put on a free cell is counted as new |
| Write.LettersPrefix | jigsaw.c:440 | in a prefix of a delimited word every code but the leading star is a letter |
| Write.LettersDelimited | jigsaw.c:862-867 | a word holds its length less two letters |
| Write.PlaceWord | jigsaw.c:372-481 | place_hword and place_vword accept exactly when the check passes, and then build the saved node |
| Write.PlacedCells | jigsaw.c:437-462 | the saved grid holds the word's codes in its cells; a cell given a letter loses the hint of the word's orientation and, when it was free, gains the hint across; a cell given a star keeps its hints; every other cell and hint is as before |
| Write.PlacedCounts | jigsaw.c:452-459 | numchar grows by the new letters and numchar + numconn by the word's length less 2 |
| Write.PlacedHash | jigsaw.c:454 | the saved hash is the old one plus the terms (123456+xy)*(123456-c) of the new letters, modulo 2^32 |
| Write.PlacedWritten | jigsaw.c:430-436 | the copy keeps the grid, hints and hash of the input, and the saved hash is the one the write leaves |
| Write.PlacedWorklist | jigsaw.c:436-450 | the saved worklist is the old one plus the confirmed crossings, less at most one entry per letter, each pending in the word's orientation at one of its letters |
| Write.PlacedAnchors | jigsaw.c:434-476 | the word joins the set and numword grows by one; lastlevel becomes the larger of itself and the level of the last cell; under symmetry the mirror anchor is set when none was pending and cleared otherwise |
| Write.PlacedGrows | jigsaw.c:429-479 | the saved node is a well-formed grid holding one word more |
| Write.PlacedOk | jigsaw.c:429-479 | the saved node is a well-formed grid state |
| Write.PlacedGridOk | jigsaw.c:461 | the saved grid holds codes only and the border still holds stars |
| Write.PlacedAttrOk | jigsaw.c:441-455 | the saved border bits still mark the border |
| Write.PlacedWorklistOk | jigsaw.c:413-415 | the saved worklist stays below ADJMAX entries, each naming a real link entry |
| Write.SubMultiset | jigsaw.c:446-448 | a worklist that only lost entries is no longer and holds nothing new |
| Write.NewEntriesLinked | jigsaw.c:425-426 | every confirmed crossing names a real link entry, not the end marker |
| Write.PlacedFirstLetter | jigsaw.c:453-456 | the first word on an empty grid puts at least one new letter, so numchar becomes positive |
| Frontier.Bucket | jigsaw.c:233-235 | the bucket index lies in 0..SCOREMAX-1 |
| Frontier.BucketMonotone | jigsaw.c:233-235 | a higher score never lands in a lower bucket |
| Frontier.BucketOrder | jigsaw.c:792-800 | a grid in a higher bucket has a strictly higher score, which is why gathering from the top keeps the list sorted |
| Frontier.FrontierUpdate | jigsaw.c:266 | replacing one bucket by a well-formed bucket of its band keeps the frontier well formed |
| Frontier.InsertSorted | jigsaw.c:264-266 | inserting between the grids that go before and after keeps the bucket sorted |
| Frontier.InsertMultiset | jigsaw.c:264-266 | insertion adds exactly the one grid |
| Frontier.IndexOf | jigsaw.c:264-266 | a filed grid has a position in its bucket |
| Frontier.TotalUpdate | jigsaw.c:264-269 | replacing a bucket changes the total by the change of its length |
| Frontier.Passed | jigsaw.c:238-257 | after the walk and the duplicate run every earlier grid goes before the new one and every later one strictly after it, and no equal grid was skipped |
| Frontier.Filed | jigsaw.c:238-266 | the insertion point add_node reaches keeps the bucket sorted and well formed, adds the grid once, and is reached only when the bucket holds no equal grid |
| Frontier.SortedAppend | jigsaw.c:797 | appending a sorted list of lower grids to a sorted list keeps it sorted |
| Frontier.GatheredSize | jigsaw.c:791-800 | the gathered list takes every grid of the buckets it joins |
| Frontier.GatheredOk | jigsaw.c:791-800 | the buckets joined from the highest down form one list sorted by score, then hash, of well-formed grids |
| Frontier.TotalNonEmpty | jigsaw.c:833-834 | a frontier holding a grid has a non-empty bucket |
| Frontier.EmptyFrontier | jigsaw.c:799 | emptied buckets form a well-formed frontier with no grids |
| Frontier.TotalZero | jigsaw.c:799 | emptied buckets hold no grid |
| Frontier.FrontierBound | jigsaw.c:833-834 | a frontier that still holds a grid of at least k words has k no larger than the word list |
| Frontier.IndexSetBound | jigsaw.c:60-62 | a set of word indices below n has at most n members |
| Hotspot.LevelStartLevel | jigsaw.c:984-990 | the first cell of each level 1..2*GRIDMAX-3 lies on that level, inside the border from level 2 to 2*GRIDMAX-4 |
| Hotspot.DiagonalStep | jigsaw.c:654-656 | a step of the walk from an interior cell stays in the grid and on the level, one column left and one row down |
| Hotspot.Hotspots | jigsaw.c:982-990 | xy2level[i] is column plus row; for each level 1..2*GRIDMAX-3 the start cell lies on that level, and is interior for levels 2..2*GRIDMAX-4 |
| Hotspot.WalkStart | jigsaw.c:714 | the walk of a level starts on the level with no interior cell of the level to its right |
| Hotspot.WalkStep | jigsaw.c:716 | a step of the walk passes exactly one cell of the level |
| Hotspot.WalkEnd | jigsaw.c:715 | where the walk meets the border it has passed every interior cell of its level |
| Hotspot.WalkBegins | jigsaw.c:714 | at its start the walk has nothing of the level behind it |
| Hotspot.WalkNext | jigsaw.c:716-718 | a step keeps the walk on the level, and a level filled behind and at the cell is filled behind the next one |
| Hotspot.WalkEnds | jigsaw.c:776-777 | a level walked to the border without a free cell has no free interior cell |
| Hotspot.InitialGrid | jigsaw.c:993-1003 | the initial grid has stars with the border bit on the border, and free cells without hints inside |
| Trace.ChainStep | jigsaw.c:631-634 | one step down a link chain records the attempt of that entry, then goes on from the next entry |
| Trace.ChainTriesShape | jigsaw.c:628-641 | every attempt of the adjacency step is on the same grid, in the entry's orientation, by an entry of the chain anchored at its offset |
| Trace.SymStep | jigsaw.c:614-616 | one step of the symmetry loop records word w when it is unplaced and of the mirror length |
| Trace.SymTriesShape | jigsaw.c:611-624 | the symmetry step tries only unplaced words of the mirror length at the mirror anchor, each once, from the last word down |
| Trace.SeedStep | jigsaw.c:1005-1019 | one starting word is tried (under symmetry only when it has 5 codes or more) before the lower words |
| Trace.Cleared | jigsaw.c:733 | clearing a hint bit clears only that bit of that cell |
| Trace.StarsPruned | jigsaw.c:733-740 | clearing a hint and putting stars is a pruning |
| Trace.PrunedRefl | jigsaw.c:714-773 | a grid is a pruning of itself |
| Trace.PrunedTrans | jigsaw.c:714-773 | a pruning of a pruning is a pruning |
| Trace.PrunedOk | jigsaw.c:733-740 | pruning keeps a grid well formed |
| Trace.PrunedBorder | jigsaw.c:715 | pruning keeps the border bits that stop the walk |
| Trace.AdvancePruned | jigsaw.c:776-777 | moving the hotspot forward is still a pruning |
| Trace.FilledPruned | jigsaw.c:776-777 | a filled level stays filled under pruning |
| Trace.CoveredPruned | jigsaw.c:717-718 | a covered stretch of a level stays covered under pruning |
| Trace.ThroughLink | jigsaw.c:658-660 | the attempt for an entry of the links1 list of the scanned letter passes through the scanned cell |
| Trace.SweepLetter | jigsaw.c:658-662 | every attempt of the sweep lines up a letter of its word, not a delimiter, with the same letter on the scanned cell |
| Trace.ReachableNext | jigsaw.c:658 | the walk of a list stays on the list until its end |
| Sweep.Pruning | jigsaw.c:731-741 | pruning clears exactly the cell's hint of the orientation, only turns cells into stars, keeps the hotspot, and abandons the scan exactly when the grid is symmetrical and the mirror of the cell before or after holds a letter |
| Sweep.FragCell | jigsaw.c:719-744 | the fragment pass at a cell and orientation leaves a well-formed grid that is a pruning of its input, with the same hotspot |
| Sweep.FragAt | jigsaw.c:719-770 | the fragment pass at one cell, across then down, leaves a well-formed pruning of the grid with the same hotspot |
| Sweep.FragWalk | jigsaw.c:714-773 | the fragment pass down the rest of a diagonal leaves a well-formed pruning of the grid with the same hotspot, and a free cell once seen stays seen |
| Sweep.SuccessesAppend | jigsaw.c:662 | the grids placed by two runs of attempts add up, as the `hasplace` and `cnt` sums do |
| Sweep.SuccessesOne | jigsaw.c:662 | one attempt counts one exactly when it places a grid |
| Sweep.SuccessesZero | jigsaw.c:673-674 | a run of attempts places nothing exactly when none of them places a grid, so the `hasplace` test asks whether any attempt succeeded |
| Sweep.CellStep | jigsaw.c:658-663 | one entry of a links1 list: its attempts come first, then those of the rest of the list, and the grids placed add up |
| Sweep.DiagStep | jigsaw.c:654-675 | one cell of the tight or adjacent pass: when it places a grid the pass ends there; otherwise the rest of the diagonal follows and places what the whole pass places |
| Sweep.FragAtStep | jigsaw.c:719-770 | the fragment pass at one cell is the pass across, followed, unless that abandoned the scan or the cell no longer wants a word down, by the pass down on the grid the pass across left |
| Sweep.FragWalkStep | jigsaw.c:714-773 | one cell of the fragment pass: the pass ends there when it placed a grid or abandoned the scan; otherwise the rest of the diagonal follows on the pruned grid |
| SweepLaws.SweepTriesAll | jigsaw.c:649-778 | a run of attempts belongs to the sweep of a grid exactly when each attempt is on a pruning of that grid and passes the filter of its pass through the scanned letter |
| SweepLaws.SweepTriesAppend | jigsaw.c:649-778 | two runs of attempts of the sweep of a grid, one after the other, are attempts of that sweep |
| SweepLaws.SweepTriesPruned | jigsaw.c:731-741 | the attempts of the sweep of a pruning of a grid are attempts of the sweep of the grid itself |
| SweepLaws.LinkSound | jigsaw.c:658-725 | the attempts for an entry of the scanned letter's links1 list pass the filter of their pass through that letter |
| SweepLaws.CellSound | jigsaw.c:658-663 | the attempts down a letter's links1 list from any entry on it are attempts of the sweep |
| SweepLaws.PairSound | jigsaw.c:657-672 | the tight or adjacent pass at one cell makes only attempts of the sweep |
| SweepLaws.DiagSound | jigsaw.c:654-675 | the tight or adjacent pass down a diagonal makes only attempts of the sweep |
| SweepLaws.FragCellSound | jigsaw.c:719-744 | the fragment pass at a cell and orientation makes only attempts of the sweep |
| SweepLaws.FragAtSound | jigsaw.c:719-770 | the fragment pass at one cell makes only attempts of the sweep, the pass down on the grid the pass across pruned |
| SweepLaws.FragWalkSound | jigsaw.c:714-773 | the fragment pass down a diagonal makes only attempts of the sweep, each on the grid as pruned so far |
| SweepLaws.FragWalkFills | jigsaw.c:714-777 | a fragment pass over a level that places nothing, abandons nothing and sees no free cell leaves no free interior cell on the level |
| Levels.LevelSweep | jigsaw.c:651-777 | one level leaves a well-formed pruning of the grid and makes only attempts of the sweep; it moves the hotspot only to the next level, only when the sweep goes on and the level is filled |
| Levels.LevelFrom | jigsaw.c:651-777 | the passes of a level from a given pass on leave a pruning of the grid and move the hotspot only to the next level without ending the sweep |
| Levels.LevelSound | jigsaw.c:651-773 | the passes of a level from a given pass on make only attempts of the sweep |
| Levels.LevelFilled | jigsaw.c:775-777 | the passes of a level move the hotspot past it only when it has no free interior cell |
| Levels.LevelStep | jigsaw.c:651-777 | a level runs the tight pass (none under symmetry), then the adjacent pass when it placed nothing, then the fragment pass when neither placed anything; the first pass that places a grid ends the sweep, as does a fragment pass that abandons the scan; otherwise the hotspot moves past the level when it held no free cell |
| Levels.SweepRun | jigsaw.c:649-778 | the sweep from a level leaves a well-formed pruning of the grid and makes only attempts of the sweep; the hotspot stays or moves forward past the start level, to at most lastlevel+1 and 2*GRIDMAX-3, with the level before it filled |
| Search.Engine.constructor | jigsaw.c:978-979 | the engine starts with empty buckets, an empty free list, zero counters and the zero best grid |
| Search.Engine.MallocNode | jigsaw.c:206-223 | a node comes from the top of the free list when there is one and from the allocator otherwise; the nodes in hand grow by one |
| Search.FindSlot | jigsaw.c:236-257 | the walk reports a twin exactly when the bucket holds a grid of equal score, hash and cells; otherwise the slot it stops at keeps the bucket sorted |
| Search.Engine.AddNode | jigsaw.c:225-270 | the grid is filed exactly when its bucket holds no equal grid, added once, with realnumnode and (without pending crossings) numnode counting it; otherwise it goes to the top of the free list; no other bucket changes and no node is lost |
| Search.Engine.TryPlace | jigsaw.c:372-481 | a placement succeeds exactly when the check passes; then the new grid or an equal one is in its bucket; a rejected placement changes nothing but the record of attempts |
| Search.Engine.Admit | jigsaw.c:429-479 | after mallocnode and add_node the grid or an equal one is in its bucket, and no node is lost |
| Search.Engine.TryWord | jigsaw.c:616 | a placement whose result is not looked at keeps the engine and records its attempt |
| Search.Engine.WalkChain | jigsaw.c:631-639 | the adjacency step tries every entry of the chain, in chain order, anchored at its offset from the pending cell |
| Search.Engine.ChainOne | jigsaw.c:632-633 | one entry of the chain is tried |
| Search.Engine.MirrorWord | jigsaw.c:614-622 | the symmetry step tries exactly the unplaced words of the mirror length, from the last down, at the mirror anchor |
| Search.Engine.MirrorOne | jigsaw.c:615-616 | one word of the symmetry loop is tried when it qualifies |
| Search.Engine.Try | jigsaw.c:662 | one sweep attempt is recorded and counted exactly when it places a grid |
| Search.Engine.TryLink | jigsaw.c:658-725 | one entry of the scanned letter's links1 list makes exactly the attempts of its pass, anchored at the entry's offset: the tight pass when the anchor is on the hotspot level, the adjacent pass as `TryAdjacent` states, the fragment pass when the anchor holds no star; cnt grows by exactly the grids they place |
| Search.Engine.TryAdjacent | jigsaw.c:684-704 | the adjacent pass for one entry tries the word when its anchor holds a star and, under symmetry, once more when the mirror of its last cell holds a star, in that order; cnt grows by exactly the grids placed |
| Search.Engine.WalkCell | jigsaw.c:721-730 | one pass through the letter at a cell in one orientation makes exactly the attempts of its whole links1 list in list order, the fragment pass (without symmetry) ending after the first entry that places a grid, and returns the number of grids placed |
| Search.Engine.DiagCell | jigsaw.c:657-672 | at one cell of the diagonal the pass runs across when the cell wants a word across, then down when it wants one down: exactly those attempts in that order, and the number of grids placed |
| Search.Engine.Diagonal | jigsaw.c:654-675 | the tight or adjacent pass over a level makes exactly the attempts of its cells from the level's first cell to the border, ending after the first cell that places a grid, and reports exactly the grids placed |
| Search.Engine.FragmentCell | jigsaw.c:719-744 | the fragment pass at a cell and orientation makes exactly the attempts of the links1 walk; when none places a grid it prunes exactly as `Sweep.Pruning` says, abandoning the scan only there, and otherwise leaves the grid as it was |
| Search.Engine.FragmentAt | jigsaw.c:719-770 | the fragment pass at one cell makes exactly the attempts of `Sweep.FragAt` (across, then down on the grid as across left it unless that abandoned the scan or the cell no longer wants a word down) and ends with its grid, count and abort |
| Search.Engine.FragmentSweep | jigsaw.c:711-773 | the fragment pass over a level makes exactly the attempts of `Sweep.FragWalk` from the level's first cell and ends with its grid, grids placed, free-cell flag and abort |
| Search.Engine.SweepLevel | jigsaw.c:651-777 | one level makes exactly the attempts of `Levels.LevelSweep` and leaves its grid and its verdict on whether the sweep ends |
| Search.Engine.Sweep | jigsaw.c:649-778 | the sweep makes exactly the attempts of `Levels.SweepRun` from the hotspot level and leaves its grid |
| Search.Engine.ScanGrid | jigsaw.c:605-779 | a grid with a pending mirror word tries exactly the mirror words; otherwise a grid with pending crossings pops the last one and tries exactly its chain; otherwise it becomes the best grid when it holds more words, and is swept: exactly the attempts of `Levels.SweepRun`, each on a pruning of the grid through a letter it scans, with the hotspot moved only forward past a filled level, to at most lastlevel+1; the best grid's word count never drops |
| Search.GatherBuckets | jigsaw.c:791-800 | the loop joins the buckets from the highest down into one list and leaves every bucket empty |
| Search.Engine.Gather | jigsaw.c:790-800 | the gathered list is every bucket from the highest down, sorted best first, and the frontier is left empty |
| Search.Engine.Drain | jigsaw.c:802-812 | every gathered node goes back to the free list after its scan, and no node is lost |
| Search.Engine.Round | jigsaw.c:785-812 | a round gathers the frontier best first and expands it; what is left in the frontier is exactly what the round filed, and every grid filed holds one word more than the previous floor |
| Search.Engine.KickAss | jigsaw.c:781-836 | rounds run until the timer fires or a round files nothing; the timer is read once per round; there are at most |words|+1 rounds; the best grid never loses words |
| Search.Engine.SeedWords | jigsaw.c:1005-1019 | main tries, from the last word down, every word of 5 codes or more centred on the middle row under symmetry, or every word at the start of row 1 otherwise |
| Search.Engine.SeedWord | jigsaw.c:1008-1017 | one starting word is tried on the start grid as main leaves it |
| Search.Prune | jigsaw.c:731-741 | pruning clears the cell's hint bit and stars the cells before and after it; under symmetry it stars their mirrors too, or abandons the scan when a mirror holds a letter |
| Search.NeighbourStars | jigsaw.c:733-735 | the cell's hint bit is cleared and its two neighbours in the orientation become stars |
| Search.StarMirror | jigsaw.c:737-738 | the mirror cell becomes a star, or the scan is abandoned when it holds a letter |
| Jigsaw.StartNodeOk | jigsaw.c:993-1003 | the initial grid is a well-formed grid state with no word |
| Jigsaw.Run | jigsaw.c:938-1029 | a word list that does not load ends the run; otherwise the rounds run until the timer or convergence, at most |words|+1 of them, and the best grid is empty or a complete grid of distinct words of the list |

## Left out

- File reading: `Run` and `LoadWords` take the lines that `fgets` returns before end of file. Lines longer than the 80-byte buffer arrive as several lines, and a last line without a newline is never processed by the source.
- Argument parsing (`getopt`, `usage`): the symmetry flag and the node budget are parameters of `Run`.
- Output: `dump_grid`, `elapsedstr` and the debug prints are left out. So are the `seqnr`, `numscan`, `hashtst` and `hashhit` counters, which only feed them.
- The timer: `SIGALRM` and `ticks` are a parameter `timeUp`, read once after each round. A run that times out returns the best grid instead of printing it and exiting.
- Memory exhaustion: the exit of `mallocnode` when `malloc` fails is not modelled; the allocator always succeeds. The grid `main` gets from `calloc` is not counted in `nummalloc`.
- The free list and the buckets are sequences, not lists linked through `next`. A node's identity is not modelled: a grid is a value, `memcpy` is a copy, and the in-place updates of `scan_grid` return an updated value.
- The worklist (`adjdir/adjxy/adjl`, `numadj`) is the sequence of its live entries. The check phase writes the new entries into slots past `numadj` of the input node. Here it returns them instead, so those scratch writes to the input node are not modelled.
- The score: the `float` score is the exact rational numconn/numchar. The bucket index uses the floor of score*(SCOREMAX-1), which is what the C cast does for scores of 0 or more. Float rounding is not modelled.
- Integer widths: the hash is kept modulo 2^32, as the `uint32_t` field stores it. `int16_t` fields and `int` counters are unbounded, since no value in the model exceeds them.
- Unchecked reads: the sweep reads `xy2level[tstxy]`, `grid[tstxy]` and mirror cells at indices that can fall outside the grid. The model guards these reads with a range test. Each such anchor is one that the bounds check of `place_hword`/`place_vword` rejects anyway, so the outcome is the same.
- Capacity overflow: `linkdat` beyond LINKMAX entries and a line overrunning `wordbase` are not modelled. A word of length n brings 3n-5 entries, so a word list that loads can need 255 * 85 entries, far more than LINKMAX. The model's table has no capacity.
- Trace.Pruned: states that every other cell keeps its code or becomes a star, not exactly which cells the pruning touched; `Sweep.Pruning` and the methods of the sweep state the exact cells.
- Search.Engine.Drain: does not state which gathered grids are scanned. The node-budget test `|adj| > 0 || numnode < nodemax` is modelled in the body only.
- Search.Engine.TryPlace: states that the new grid or an equal one is in its bucket. It does not say which of the two cases happened; `Search.Engine.AddNode` states that.
- Words.LoadWords: the fatal errors end the run with `LoadFailed` rather than exiting the process.
