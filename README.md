# Senate bus stop simulation: verified model

This project models two pieces of the bus-stop simulation in Dafny and proves
properties of them.

1. **The bus stop's synchronisation counters** (`bus_stop.dfy`, module
   `BusStopProtocol`). `BusStop` in `src/BusStop.java` coordinates rider threads
   and bus threads. It has a count of waiting riders and three semaphores:
   - `mutex`, the lock around the count;
   - `waitingRiders`, permits that let riders board;
   - `allAboard`, acknowledgements from riders who boarded.

   Each public method (`riderArrives`, `boardBus`, `busArrives`, `busDeparts`)
   is modelled as one atomic step on these four counters. A blocking `acquire`
   becomes the step's precondition: the step is modelled only where it can
   complete.
   - The step functions on the `StopState` value are the specification.
   - The `BusStop` class has the same fields. Its methods update them in place,
     including the `for` loops that release and acquire permits one at a time.
     Each method is proved to leave exactly the state that its step function
     gives.
   - Three ghost tallies record history: completed arrivals, completed
     boardings, and riders subtracted at departure. From them the model proves
     that the waiting count never goes negative in any reachable interleaving.
     This holds as long as every rider calls `riderArrives` before `boardBus`,
     as `src/Rider.java` does.

2. **The screenshot layout** (`screenshot.dfy`, module `Screenshot`).
   `scripts/generate_screenshot.py` renders a log as terminal-style images. The
   model covers what the script computes:
   - the `"$ "` prompt added to the first three lines;
   - the image width (widest line plus padding);
   - the greedy split of the lines into parts. The 800-pixel limit covers only
     the top padding and the lines; the bottom padding is added afterwards.
     A part of two or more lines is therefore at most 820 pixels tall, and a
     part holding a single tall line has no bound;
   - each part's number and height;
   - the y coordinate at which each line is drawn.

   Text measurement comes from the imaging library, so it is the parameter
   `measure: string -> TextSize`.

Nothing in `src/BusStop.java` stops a second bus from calling `busArrives`
before the first bus's `busDeparts`: `busArrives` releases the lock (line 63)
before `busDeparts` lowers the count (line 82), and `src/Main.java` starts bus
threads that can overlap. Two buses can therefore snapshot the same waiting riders, and
between them they release more permits than there are waiting riders. The model
follows the code: it adds no exclusion token, and it does not claim that
outstanding permits never exceed the waiting count. The lemmas
`OverlappingBusesOverIssue` and `LateRiderUsesLeftoverPermit` exhibit that
interleaving. In it, a rider who arrives after both snapshots boards the second
bus. `BoardingWithoutArrivalGoesNegative` shows that the count goes negative
when a thread boards without having arrived first. The safety lemma therefore
needs the rider protocol.

## Model

| member | source | states |
|---|---|---|
| `BusStopProtocol.RiderArrivesStep` | src/BusStop.java:22-27 | the waiting count rises by exactly one; the lock is taken and given back; the boarding permits and acknowledgements are unchanged |
| `BusStopProtocol.BoardBusStep` | src/BusStop.java:36-40 | one boarding permit is consumed and exactly one acknowledgement is produced; the count and the lock are unchanged |
| `BusStopProtocol.BusArrivesStep` | src/BusStop.java:50-65 | the returned batch is at most the capacity 50 and at most the count at the snapshot, and equals one of them (the minimum); exactly that many permits are released when it is positive, none otherwise; nothing else changes |
| `BusStopProtocol.BusDepartsStep` | src/BusStop.java:76-86 | consumes exactly `boarded` acknowledgements (none when `boarded` <= 0, as the Java loop runs zero times); subtracts `boarded` from the count; the lock and the boarding permits are unchanged |
| `BusStopProtocol.BoardMany` | src/BusStop.java:36-40 | n riders completing boardBus move n permits from boarding permits to acknowledgements and leave the count alone |
| `BusStopProtocol.InvBounds` | src/BusStop.java:10-13 | between calls, the acknowledgements never exceed the waiting count, which is therefore non-negative; a snapshot then yields a batch from 0 to 50 |
| `BusStopProtocol.StepPreservesInv` | src/BusStop.java:22-86 | every call that can complete, with boardBus made only by a rider who has arrived, keeps the invariant: the lock is free, boardings do not exceed arrivals, subtractions do not exceed acknowledgements produced, and the count equals arrivals minus subtractions |
| `BusStopProtocol.RunPreservesInv` | src/BusStop.java:22-86 | any interleaving of completed calls from an invariant state ends in an invariant state |
| `BusStopProtocol.ReachableStateIsSafe` | src/BusStop.java:22-86 | in every state reachable from a new stop through calls that follow the rider call order of src/Rider.java:29-31 (arrive, then board), the count is non-negative and at least the pending acknowledgements, the lock is free, and a bus would get a batch from 0 to 50 |
| `BusStopProtocol.SerialVisit` | src/Bus.java:25-33 | a bus visit that no other bus overlaps (busArrives, every permit used, busDeparts with the batch) subtracts min(count, 50) from the count and returns both semaphores to their previous counts |
| `BusStopProtocol.FullBusLeavesRemainder` | src/BusStop.java:52-82 | with 79 riders waiting, the bus takes 50 and leaves 29 |
| `BusStopProtocol.EmptyStopVisit` | src/BusStop.java:53-64 | with nobody waiting, busArrives returns 0 and releases no permit; busDeparts(0) changes nothing |
| `BusStopProtocol.OverlappingBusesOverIssue` | src/BusStop.java:51-63 | two buses arriving before either departs both snapshot the same single rider: two permits for one waiting rider |
| `BusStopProtocol.LateRiderUsesLeftoverPermit` | src/BusStop.java:76-82 | after that, the second bus cannot depart once the first has left; a rider who arrives later takes the leftover permit and the second bus departs with the count back at 0 |
| `BusStopProtocol.BoardingWithoutArrivalGoesNegative` | src/BusStop.java:36-40 | if a thread boards without having arrived, overlapping buses drive the count to -1 |
| `BusStopProtocol.BusStop.constructor` | src/BusStop.java:10-13 | a new stop has count 0, the lock free and no permits |
| `BusStopProtocol.BusStop.RiderArrives` | src/BusStop.java:22-27 | the in-place update (lock down, increment, lock up) leaves exactly the state of RiderArrivesStep and keeps the invariant |
| `BusStopProtocol.BusStop.BoardBus` | src/BusStop.java:36-40 | leaves exactly the state of BoardBusStep and keeps the invariant, for a rider that has arrived |
| `BusStopProtocol.BusStop.BusArrives` | src/BusStop.java:50-65 | the permit-releasing loop leaves exactly the state and batch of BusArrivesStep; the batch is between 0 and 50 |
| `BusStopProtocol.BusStop.BusDeparts` | src/BusStop.java:76-86 | the acknowledgement-acquiring loop and the subtraction leave exactly the state of BusDepartsStep and keep the invariant |
| `Screenshot.StyleLines` | scripts/generate_screenshot.py:55-60 | the styled list is as long as the input; lines 0 to 2 get the `"$ "` prefix; every other line is unchanged |
| `Screenshot.CommandLinesSplitBack` | scripts/generate_screenshot.py:106-109 | a prefixed line starts with the prompt, and removing the prompt gives back the original line |
| `Screenshot.MeasureLines` | scripts/generate_screenshot.py:66-71 | one height per line, each the measured height; the maximum width is at least every line's width and is 0 or some line's width |
| `Screenshot.SpanGrows` | scripts/generate_screenshot.py:85-91 | adding lines to a run adds at least the spacing per line, so heights only grow |
| `Screenshot.FillPart` | scripts/generate_screenshot.py:80-93 | a part takes at least one line, as a contiguous slice from its start; with two or more lines, top padding plus lines fit in 800; unless the input ends, one more line would not fit; the returned height is top padding plus the lines |
| `Screenshot.GreedyPartUnique` | scripts/generate_screenshot.py:84-89 | the greedy rule fixes a part's length once its start is known |
| `Screenshot.RowPositions` | scripts/generate_screenshot.py:102-113 | line i of a part is drawn at y = padding + the heights and spacings of the lines before it on that part |
| `Screenshot.PartHeightBound` | scripts/generate_screenshot.py:81-95 | the limit at line 88 covers the top padding and the lines; with the bottom padding a part of two or more lines is at most 800 + 20 pixels tall |
| `Screenshot.TwoLinePartExceedsLimit` | scripts/generate_screenshot.py:81-95 | lines of heights 300 and 470 share one part of height 820, above the 800-pixel limit |
| `Screenshot.TallLinePartExceedsLimit` | scripts/generate_screenshot.py:84-93 | a single line of height 1000 gets a part of its own, 1045 pixels tall, above even the limit plus the bottom padding |
| `Screenshot.MakePart` | scripts/generate_screenshot.py:80-104 | one outer iteration builds part k+1 from its start with a greedy, non-empty run of the following lines, height top padding + lines + bottom padding, and its line positions |
| `Screenshot.ExtendParts` | scripts/generate_screenshot.py:79-93 | appending a well-formed part where the others end keeps the parts in order and extends their concatenation by its lines |
| `Screenshot.Paginate` | scripts/generate_screenshot.py:76-120 | the parts concatenated in order give exactly the styled lines; parts are numbered 1, 2, 3, ...; each is non-empty, greedy, within the height bound when it has two or more lines, and has the stated height and line positions |
| `Screenshot.PartDetermined` | scripts/generate_screenshot.py:80-113 | two parts with the same number and start are identical |
| `Screenshot.PrefixesAgree` | scripts/generate_screenshot.py:79-93 | two sequences of parts in order agree on any common prefix |
| `Screenshot.StartsBeforeEnd` | scripts/generate_screenshot.py:79-93 | every part starts at a line that exists, so no part is empty |
| `Screenshot.PaginationUnique` | scripts/generate_screenshot.py:79-93 | any two layouts meeting Paginate's postcondition are equal, so the postcondition determines the split completely |
| `Screenshot.RowsInsidePart` | scripts/generate_screenshot.py:95-113 | every line is drawn below the top padding, above the bottom padding, and below the lines drawn before it |
| `Screenshot.Screenshot` | scripts/generate_screenshot.py:55-95 | the whole layout: styled lines, one measured height per line, an image width equal to the widest line plus twice the padding, and a pagination as in Paginate |

## Left out

- Real thread interleaving, blocking, fairness, deadlock freedom and the `InterruptedException` paths. Each call is one atomic step whose blocking `acquire` is a precondition. Interleavings are sequences of such steps (`Run`).
- `BusStopProtocol.BusStop.BoardBus`: riders have no identity in the model. Its ghost requirement is about totals: more riders have completed `riderArrives` than have completed `boardBus`. This follows from the call order at `src/Rider.java:29-31`, where each rider arrives before boarding; the code itself does not check it.
- `BusStopProtocol.RiderArrivesStep`: does not model 32-bit wrap-around of `waitingRiderCount++`. Counts are unbounded integers, because wrap-around would need over two billion waiting riders.
- The console logging in every `BusStop` method.
- `getTotalBoardedRiders` and `getMaxWaitingRiders`. `src/Main.java` calls them, but `src/BusStop.java` does not define them, so the model has no boarded-total or high-water metrics.
- `src/Main.java`, including argument parsing, the generator threads, exponential sleep times and joins, is not part of this model. Nor is `src/Logger.java`.
- The thread wrappers in `src/Rider.java` and `src/Bus.java`, their synchronised id counters and the two-second boarding sleep. Their call order is used only to justify preconditions.
- From the screenshot script: font loading, reading the input file and the error exit when it is missing, creating the output directory, creating, drawing and saving images, and printing the saved file names.
- Text measurement is the parameter `measure`, with non-negative widths and heights.
- Drawing the prompt in its own colour. Only the fact that a prefixed line splits back into the prompt and the original line is modelled. A later line that happens to start with `"$ "` would be drawn with the prompt colour as well.
- `Screenshot.FillPart` and `Screenshot.RowPositions` are separate methods. In the script, that inner loop and that drawing loop are written inline in the outer loop of `main`.
