# Four-field Kono in Dafny

A model of the game engine of four-field Kono. The game is played on a 4 x 4 board. The human ('O', `Player`) starts on the two lower rows and the computer ('X', `Computer`) on the two upper rows.

A side moves one of its pieces in one of two ways:

- a **step** to an orthogonally adjacent empty cell;
- a **capture**: a jump over an adjacent own piece onto an opponent piece two cells away, which is removed.

A side wins when its opponent has one piece left, or when every opponent piece is immobilised. On top of the rules sit three computer opponents and the game controller that applies moves.

| file | module | models |
|---|---|---|
| `wrappers.dfy` | `Wrappers` | `Option` and `Result` |
| `grid.dfy` | `Grid` | sides, cells, positions, the 4 x 4 grid, row-major indexing, piece counts |
| `board.dfy` | `Rules` | the board: start layout, bounds-checked read, `move`, `is_board_won`, `check_valid_move`; the error kinds of the exceptions module |
| `moves.dfy` | `Moves` | neighbour scans, capture detection, move generation (shared by both scanning strategies) |
| `evaluation.dfy` | `Evaluation` | the static evaluation |
| `values.dfy` | `Values` | integers extended with the two infinities |
| `tree.dfy` | `Trees` | minimax and fail-soft alpha-beta on an explicit game tree |
| `minimax.dfy` | `Search` | the game tree of a position; the depth-bounded search of the intelligent strategy |
| `intelligent.dfy` | `Intelligent` | the intelligent strategy's choice of move |
| `capturing.dfy` | `Capturing` | the three-tier capturing strategy |
| `random_strategy.dfy` | `RandomStrategy` | the rejection-sampling strategy |
| `game.dfy` | `Game` | the game controller |

Modelling choices:

- **Boards are values.** `Move` returns a new board or the error `board.py` raises. It is built before anything is written, so a rejected move has no effect. The strategies only read the board, and the trial moves of the search act on copies; both follow from boards being values.
- **Checks in the Python program's order.** Every operation tests in the same order as the Python program and stops where it raises or returns.
- **Python semantics.** `check_valid_move` indexes lists the Python way: a negative index counts from the end, and an index past the end raises IndexError. `None` stands for that error. A shape test that falls off its end returns `None`, which is falsy.
- **The search.** The search is a function of the game tree of the position: the boards the Python search visits, in the order it visits them.
  - `Search.AlphaBeta` runs the Python program's alpha-beta loop over that tree: the same updates, the same cut-offs, and `-inf`/`+inf` as the initial window.
  - `Search.Minimax` is the unpruned reference.
  - The `random.choice` of a best move inside the search only sets a move the caller throws away, so the search returns values only.
- **The capturing strategy.** Its three scans are each one row-major, first-match scan (`Capturing.Scan`) over a probe of one cell. Each probe mirrors the body of one of the three loops of `get_move`.
- **The random strategy.** The random numbers are a parameter: a finite sequence of draws, each coordinate in range as `randint` guarantees. The strategy returns the first draw the legality test accepts. When the sequence holds none, it returns `None`; that is where `get_move` keeps drawing, and with no legal computer move it draws for ever. The generator moves on with every draw, so the game keeps only the draws behind the accepted pair for the next computer turn (`RandomStrategy.Unused`, `Game.Advance`).
- **The controller.** `Game.GameError.NoMove` stands for a computer turn that ends without a pair to play, which happens differently per strategy:
  - the capturing strategy's `get_move` returns `None` when no move exists, and `computer_move` fails on unpacking it;
  - the intelligent strategy fails earlier, inside its own `get_move`, on indexing the missing best move;
  - the random strategy never returns: with no legal move it draws for ever. In the model, `NoMove` for it means only that the finite sequence of draws ran out.

Where the code and the program's own descriptions of it differ, the model follows the code:

- **Immobilisation.** The rules text shown to the player (`src/constants.py:92-95`) says a side loses when it is "immobilized, cannot move or capture". The code instead counts a piece as immobilised when 2 neighbours block it in a corner, 3 on the top or bottom edge, and 4 anywhere else. So a piece in the middle of the left or right edge never counts (`Rules.SideColumnNeverImmobilised`).
- **Tier-2 setup check.** The capturing strategy's docstring (`src/services/computer_strategies/computer_capturing_strategy.py:7-11`) promises a step whose piece can "be part of a capturing move in the computer's next turn". The code's second tier judges a step on the board as it is before the step. The moving piece can therefore be the piece the hoped-for capture jumps over (`Capturing.PreparationMayJumpTheMover`).

## Model

| member | source | states |
|---|---|---|
| Grid.Opponent | src/services/board.py:143-147 | the opponent of a side is the other side |
| Rules.LoadStartBoard | src/services/board.py:39-47 | from any board: rows 0-1 all computer, rows 2-3 all player, both stored counts 8, and the counts agree with the grid |
| Rules.StartBoardNotWon | src/services/board.py:102-141 | the start position is won by neither side |
| Rules.GetBoardSymbol | src/services/board.py:49-53 | fails with OutOfBoard exactly when the row or column is out of range, and otherwise returns the stored cell |
| Rules.Move | src/services/board.py:55-100 | succeeds exactly for a step or a capture by the mover. On success the source and target differ, and the new grid is the old one with the mover's piece relocated from source to target |
| Rules.Relocate | src/services/board.py:76-77 | the source cell, when it differs from the target, becomes empty; the target holds the mover's piece; every other cell keeps its value |
| Rules.MoveErrors | src/services/board.py:65-100 | the error raised, in the order the checks run: out of board, then an empty or foreign source cell (IncorrectMove), then not orthogonal, then a wrong shape (IncorrectMove) |
| Rules.MoveCounts | src/services/board.py:74-94 | a step keeps both stored counts; a capture lowers the opponent's stored count by one and keeps the mover's |
| Rules.MovePreservesConsistency | src/services/board.py:55-100 | a successful move keeps each stored count equal to the number of that side's pieces on the grid |
| Rules.CheckValidMove | src/services/board.py:149-179 | as written: for in-range coordinates, truthy exactly when `Move` succeeds; with all four coordinates out of range, False |
| Rules.IsValidMove | src/services/board.py:149-179 | the test with the intended bounds check holds exactly when `Move` succeeds |
| Rules.CheckValidMoveAcceptsOffBoard | src/services/board.py:157 | the as-written test accepts a move whose source lies off the board, which `Move` rejects as out of board |
| Rules.IsBoardWon | src/services/board.py:102-141 | won when the opponent's stored count is 1; with consistent counts, exactly when that holds or every opponent piece is immobilised |
| Rules.WonByImmobilisationIsStuck | src/services/board.py:113-141 | when the board is won by immobilisation and the counts are consistent, `Move` rejects every move of the opponent |
| Rules.SideColumnNeverImmobilised | src/services/board.py:132-138 | a piece on the left or right edge, away from the corners, is never immobilised |
| Moves.AdjacentSymbolCells | src/services/computer_strategies/computer_intelligent_strategy.py:221-240 | exactly the in-bounds orthogonal neighbours holding the given cell value, in the order down, up, right, left |
| Moves.CheckCanCapture | src/services/computer_strategies/computer_intelligent_strategy.py:261-292 | returns the cell beyond the jumped piece exactly when the two share a row or column and that cell is on the board and holds the opponent; otherwise None |
| Moves.FindCapturingMoves | src/services/computer_strategies/computer_intelligent_strategy.py:242-259 | exactly the landing cells of the piece's captures, in scan order |
| Moves.MovesOfPiece | src/services/computer_strategies/computer_intelligent_strategy.py:201-219 | exactly the piece's step and capture targets; steps before captures, each in neighbour order |
| Moves.GetMovesOfPlayer | src/services/computer_strategies/computer_intelligent_strategy.py:183-199 | a pair is generated exactly when `Move` accepts it, pieces in row-major order and each piece's targets in scan order |
| Moves.NoMoves | src/services/computer_strategies/computer_intelligent_strategy.py:183-199 | move generation is empty exactly when the side has no legal move |
| Evaluation.CaptureCountIsMoves | src/services/computer_strategies/computer_intelligent_strategy.py:169-174 | the captures counted for a piece are as many as move generation finds for it |
| Evaluation.EvaluationValue | src/services/computer_strategies/computer_intelligent_strategy.py:153-181 | 10 times the difference of the piece counts, found by scanning the grid, plus 5 times the difference of the capture counts, computer minus player |
| Evaluation.EvaluationOfConsistent | src/services/computer_strategies/computer_intelligent_strategy.py:153-181 | with consistent counts the piece term uses the stored counts |
| Evaluation.StartEvaluation | src/services/computer_strategies/computer_intelligent_strategy.py:153-181 | the start position evaluates to 0 |
| Trees.NodeIsBest | src/services/computer_strategies/computer_intelligent_strategy.py:102-151 | a node's minimax value bounds every child in the mover's direction and is the value of one of them; with no children it is -inf for the maximiser and +inf for the minimiser |
| Trees.AlphaBetaFailSoft | src/services/computer_strategies/computer_intelligent_strategy.py:102-151 | in any non-empty window, alpha-beta gives a fail-soft answer: the exact minimax value inside the window, and a bound on the correct side outside it |
| Trees.AlphaBetaIsMinimax | src/services/computer_strategies/computer_intelligent_strategy.py:102-151 | in the full window, alpha-beta equals minimax |
| Search.LeafValues | src/services/computer_strategies/computer_intelligent_strategy.py:89-100 | both searches test a computer win (+inf), then a player win (-inf), then depth 0 (the static evaluation) |
| Search.MinimaxWithoutMoves | src/services/computer_strategies/computer_intelligent_strategy.py:102-137 | at a position that is expanded but where the side to move has no moves, the value is -inf for the computer and +inf for the player |
| Search.MinimaxBoundsChildren | src/services/computer_strategies/computer_intelligent_strategy.py:102-151 | the value of an expanded position is at least (computer) or at most (player) the value after each generated move |
| Search.AlphaBetaFailSoft | src/services/computer_strategies/computer_intelligent_strategy.py:67-151 | the board search in a non-empty window is a fail-soft answer for the minimax value of the position |
| Search.AlphaBetaIsMinimax | src/services/computer_strategies/computer_intelligent_strategy.py:48 | the search as the strategy calls it, with (-inf, +inf), returns the unpruned minimax value |
| Intelligent.SelectMove | src/services/computer_strategies/computer_intelligent_strategy.py:39-65 | None exactly for no moves. Otherwise the first move that wins at once, else the move of best value, with equal values decided by a strictly larger evaluation and then by the earlier position |
| Intelligent.ChosenIsUnique | src/services/computer_strategies/computer_intelligent_strategy.py:39-65 | at most one move meets that description |
| Intelligent.FindBestMove | src/services/computer_strategies/computer_intelligent_strategy.py:29-65 | the strategy's move among the generated moves, judged by immediate win, then depth-5 minimax value, then the static evaluation of the resulting position |
| Intelligent.BestMoveIsUnique | src/services/computer_strategies/computer_intelligent_strategy.py:29-65 | the strategy's answer is determined by the board: two answers meeting its description coincide |
| Capturing.FindCapturingMove | src/services/computer_strategies/computer_capturing_strategy.py:49-63 | the landing of a capture a computer piece at the cell could make, the first in scan order; None exactly when there is none |
| Capturing.CaptureProbe | src/services/computer_strategies/computer_capturing_strategy.py:19-24 | at a cell holding a computer piece, that piece with its first capture; None when the cell holds none or it cannot capture |
| Capturing.PrepareProbe | src/services/computer_strategies/computer_capturing_strategy.py:29-37 | at a cell holding a computer piece, the first empty neighbour from which a capture exists on the unchanged board; None when there is none |
| Capturing.StepProbe | src/services/computer_strategies/computer_capturing_strategy.py:42-47 | at a cell holding a computer piece, its first empty neighbour; None when there is none |
| Capturing.FirstCapture | src/services/computer_strategies/computer_capturing_strategy.py:16-24 | a legal computer capture from the row-major-first piece that has one, with its first landing; None exactly when the computer cannot capture |
| Capturing.FirstCaptureLowersPlayerCount | src/services/computer_strategies/computer_capturing_strategy.py:16-24 | the first tier's capture is accepted by `Move` and lowers only the player's count, by one |
| Capturing.FirstPreparation | src/services/computer_strategies/computer_capturing_strategy.py:26-37 | a legal computer step to a cell from which a capture exists on the unchanged board, from the row-major-first piece that has one and to its first such neighbour; None exactly when there is no such step |
| Capturing.PreparationMayJumpTheMover | src/services/computer_strategies/computer_capturing_strategy.py:33-37 | a step is accepted by the second tier even when the only capture it prepares jumps over the moving piece itself; after the step that capture is gone |
| Capturing.FirstStep | src/services/computer_strategies/computer_capturing_strategy.py:39-47 | a legal computer step from the row-major-first piece with an empty neighbour, to its first empty neighbour; None exactly when the computer cannot step |
| Capturing.GetMove | src/services/computer_strategies/computer_capturing_strategy.py:15-47 | every proposal is legal for the computer, and there is none exactly when the computer has no legal move. A capture is proposed whenever one exists, and otherwise a preparing step whenever one exists. The proposal is the first tier's row-major-first capture, else the second tier's first preparing step, else the third tier's first step |
| Capturing.GetMoveAgreesWithMoveGeneration | src/services/computer_strategies/computer_capturing_strategy.py:15-47 | the strategy proposes nothing exactly when move generation is empty, and its proposal is a generated move |
| RandomStrategy.GetMove | src/services/computer_strategies/computer_random_strategy.py:19-30 | the first draw the legality test accepts: in range, accepted by `Move`, no earlier draw legal; None exactly when no draw is legal |
| RandomStrategy.Unused | src/services/computer_strategies/computer_random_strategy.py:19-30 | the draws left for the next call. After an answer, exactly the draws after it remain, every earlier draw was illegal, and the answer is legal. A prefix without an answer is used up |
| RandomStrategy.DrawnUpToIsUnique | src/services/computer_strategies/computer_random_strategy.py:19-30 | the answer and the draws left after it are determined by the board and the draws |
| RandomStrategy.AcceptedIsLegal | src/services/computer_strategies/computer_random_strategy.py:29-30 | for in-range draws the as-written test agrees with `Move` and with the corrected test |
| RandomStrategy.NoLegalMoveNoAnswer | src/services/computer_strategies/computer_random_strategy.py:19-30 | without a legal computer move no sequence of draws yields an answer |
| RandomStrategy.EveryLegalMoveReachable | src/services/computer_strategies/computer_random_strategy.py:19-30 | every legal computer move is the answer for some draws, whatever illegal draws precede it |
| Game.ApplyMove | src/services/game.py:13 | a rejected move leaves the game unchanged and reports the error of `Move`. An accepted one moves just that piece, keeps the mover's count, and keeps the counts consistent; the new game is the old one with the board `Move` returns, and nothing else changes |
| Game.PlayerMove | src/services/game.py:9-13 | the effect and errors of `Move` on the given coordinates with the player side. A rejected move changes nothing; an accepted one replaces only the board, with the board `Move` returns, and keeps the strategy |
| Game.Propose | src/services/game.py:16 | the proposal is the answer of the strategy the game was set up with: the intelligent strategy's best move, the capturing strategy's move, or the random strategy's first accepted draw. Every proposal is a legal computer move. The intelligent and capturing strategies propose nothing exactly when the computer has no move, and the random one then proposes nothing |
| Game.StrategyAnswerIsUnique | src/services/game.py:16 | each strategy has exactly one answer on a board, so the answer `Propose` promises is determined |
| Game.ComputerMove | src/services/game.py:15-20 | plays the strategy's own answer with the computer side and returns that same pair, moving only that piece; the new board is the one `Move` returns. The intelligent and capturing strategies are kept; the random strategy keeps exactly the draws after the accepted one, which is the first legal draw. The new game is again well formed. When the strategy answers nothing, it fails with NoMove and changes nothing; the board never rejects an answer |
| Game.Advance | src/services/computer_strategies/computer_random_strategy.py:19-30 | the strategy for the next turn: unchanged unless it is random; the random strategy keeps the draws after its answer, and they still lie in range |

## Left out

- The graphical interface, its event loops, the pixel-to-cell conversion and all rendering: presentation and I/O.
- The fonts, images and message strings of the constants and exceptions modules. Only the board constants, the symbols and the error kinds are kept.
- The coin flip that decides who moves first, and the `random.choice` inside the search, whose move the caller discards.
- Deep copies: boards are values, so a trial move on a copy is just a call of `Move`.
- `math.inf`: values are the `Values.Value` datatype, so there is no floating point.
- The mutable `Board` and `Game` objects: each call returns the new state instead of writing it. An error result carries the unchanged state.
- RandomStrategy.GetMove: the sampling loop that never ends when no draw is accepted is modelled by `None` at the end of a finite sequence of draws. Termination is not claimed, and the uniform distribution of the draws is not modelled.
- Search.AlphaBeta: defined as alpha-beta on the game tree of the position, not as a recursion on boards. The tree's nodes are the boards the Python search visits, in its order.
- Search.MinimaxBoundsChildren: only the bounds of a node's value are stated at board level, not that it equals the value of one child. The tree-level lemma `Trees.NodeIsBest` states the latter.
- Game.ComputerMove: for the random strategy, `NoMove` means the finite draws ran out without an accepted pair. The Python program raises no error there; it keeps drawing, for ever when no legal move exists. So the game after `NoMove` keeps its draws: the turn never ends in the program, and there is no later state to match.
- The `get_move` wrapper of the intelligent strategy, which only unpacks the chosen move: `Intelligent.FindBestMove` returns the pair itself.

## Findings

| source | as written | input that shows it | evidently intended | confidence | as-written member | corrected member |
|---|---|---|---|---|---|---|
| src/services/board.py:157 | the bounds test joins the four range checks with `or`, so a move is rejected only when all four coordinates are out of range | the move (0, -1) -> (0, 1) by the computer on `Rules.OffBoardWitness`: index -1 reads the last cell of row 0, so the test returns True, while `move` raises OutOfBoardError (`Rules.CheckValidMoveAcceptsOffBoard`) | reject a move as soon as one coordinate is out of range (`and`), as `move` does | not executed | Rules.CheckValidMove | Rules.IsValidMove |

The random strategy only draws in-range coordinates, so it never reaches the faulty check. `RandomStrategy.AcceptedIsLegal` shows that for its draws the as-written test agrees with the corrected one.
