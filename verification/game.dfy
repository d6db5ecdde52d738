/**
  The game controller: it applies the human's move, or the move the chosen
  computer strategy proposes, to the shared board. A call that raises
  leaves the game as it was and hands the error back; a call that succeeds
  replaces the board by the moved one.
 */
module Game {
  import opened Wrappers
  import opened Grid
  import opened Rules
  import opened Moves
  import Intelligent
  import Capturing
  import RandomStrategy

  /** The computer strategy the game was set up with; the random one carries the draws still to come. */
  datatype Strategy = IntelligentStrategy | CapturingStrategy | RandomDraws(draws: seq<MovePair>)

  /**
    What `computer_move` can raise: a board error from the move, or the
    failure to unpack a strategy that proposed nothing.
   */
  datatype GameError = Rejected(error: BoardError) | NoMove

  datatype Game = Game(board: Board, strategy: Strategy)

  /** The random strategy's draws all lie in range, as the generator guarantees. */
  predicate WellFormed(g: Game)
  {
    g.strategy.RandomDraws? ==> forall i | 0 <= i < |g.strategy.draws| :: RandomStrategy.Drawable(g.strategy.draws[i])
  }

  /**
    `after` is `before` with one piece of `s` moved from `piece` to `target`:
    the source is emptied, the target holds the piece, every other cell and
    the stored count of `s` are as they were.
   */
  ghost predicate MovedOnly(before: Board, after: Board, piece: Position, target: Position, s: Side)
  {
    InBounds(piece) && InBounds(target)
    && At(before.grid, piece) == Piece(s)
    && At(after.grid, piece) == Empty && At(after.grid, target) == Piece(s)
    && (forall q | InBounds(q) && q != piece && q != target :: At(after.grid, q) == At(before.grid, q))
    && after.Pieces(s) == before.Pieces(s)
  }

  /**
    Moving a piece of `s` on the game's board: the new game and the error
    raised, if any. A rejected move leaves the game unchanged and reports the
    error `Move` gives; an accepted one moves exactly that piece and keeps
    the stored counts in step with the grid.
   */
  function ApplyMove(g: Game, piece: Position, target: Position, s: Side): (r: (Game, Option<BoardError>))
    ensures r.1.None? <==> Legal(g.board.grid, piece, target, s)
    ensures r.1.Some? ==> r.0 == g && Move(g.board, piece, target, s) == Err(r.1.value)
    ensures r.1.None? ==> MovedOnly(g.board, r.0.board, piece, target, s)
    ensures r.1.None? ==> r.0 == g.(board := Move(g.board, piece, target, s).value)
    ensures r.0.strategy == g.strategy
    ensures Consistent(g.board) ==> Consistent(r.0.board)
  {
    match Move(g.board, piece, target, s)
    case Ok(next) =>
      MoveEffect(g.board, piece, target, s);
      (g.(board := next), None)
    case Err(e) => (g, Some(e))
  }

  /** A legal move moves exactly the one piece and keeps the stored counts in step with the grid. */
  lemma MoveEffect(b: Board, piece: Position, target: Position, s: Side)
    requires Legal(b.grid, piece, target, s)
    ensures MovedOnly(b, Move(b, piece, target, s).value, piece, target, s)
    ensures Consistent(b) ==> Consistent(Move(b, piece, target, s).value)
  {
    MoveCounts(b, piece, target, s);
    if Consistent(b) {
      MovePreservesConsistency(b, piece, target, s);
    }
  }

  /** The human's move: a player piece from (`pieceRow`, `pieceColumn`) to (`moveRow`, `moveColumn`). */
  function PlayerMove(g: Game, pieceRow: int, pieceColumn: int, moveRow: int, moveColumn: int): (r: (Game, Option<BoardError>))
    ensures r.1.None? <==> Legal(g.board.grid, Position(pieceRow, pieceColumn), Position(moveRow, moveColumn), Player)
    ensures r.1.Some? ==> r.0 == g && Move(g.board, Position(pieceRow, pieceColumn), Position(moveRow, moveColumn), Player) == Err(r.1.value)
    ensures r.1.None? ==> MovedOnly(g.board, r.0.board, Position(pieceRow, pieceColumn), Position(moveRow, moveColumn), Player)
    ensures r.1.None? ==> r.0 == g.(board := Move(g.board, Position(pieceRow, pieceColumn), Position(moveRow, moveColumn), Player).value)
    ensures r.0.strategy == g.strategy
    ensures Consistent(g.board) ==> Consistent(r.0.board)
  {
    ApplyMove(g, Position(pieceRow, pieceColumn), Position(moveRow, moveColumn), Player)
  }

  /**
    `proposal` is what the game's strategy answers on its board: the
    intelligent strategy's best move, the capturing strategy's move, or the
    first accepted pair of the random strategy's draws.
   */
  ghost predicate StrategyAnswer(g: Game, proposal: Option<MovePair>)
    requires WellFormed(g)
  {
    match g.strategy
    case IntelligentStrategy => Intelligent.IsBestMove(g.board, proposal)
    case CapturingStrategy => proposal == Capturing.GetMove(g.board)
    case RandomDraws(draws) => proposal == RandomStrategy.GetMove(g.board, draws)
  }

  /** A strategy has one answer on a board. */
  lemma StrategyAnswerIsUnique(g: Game, proposal: Option<MovePair>, other: Option<MovePair>)
    requires WellFormed(g) && StrategyAnswer(g, proposal) && StrategyAnswer(g, other)
    ensures proposal == other
  {
    if g.strategy.IntelligentStrategy? {
      Intelligent.BestMoveIsUnique(g.board, proposal, other);
    }
  }

  /**
    The move the game's strategy proposes for the computer. Every proposal
    is a legal computer move. The intelligent and the capturing strategies
    propose nothing exactly when the computer has no legal move; the random
    one then proposes nothing whatever its draws.
   */
  method Propose(g: Game) returns (proposal: Option<MovePair>)
    requires WellFormed(g)
    ensures StrategyAnswer(g, proposal)
    ensures proposal.Some? ==> Legal(g.board.grid, proposal.value.piece, proposal.value.target, Computer)
    ensures !g.strategy.RandomDraws? ==> (proposal.None? <==> GetMovesOfPlayer(g.board, Computer) == [])
    ensures GetMovesOfPlayer(g.board, Computer) == [] ==> proposal.None?
  {
    match g.strategy {
      case IntelligentStrategy =>
        proposal := Intelligent.FindBestMove(g.board);
      case CapturingStrategy =>
        proposal := Capturing.GetMove(g.board);
      case RandomDraws(draws) =>
        proposal := RandomStrategy.GetMove(g.board, draws);
    }
    AnswerIsLegal(g, proposal);
  }

  /**
    Whatever the strategy, its answer is a legal computer move. The
    intelligent and the capturing strategies answer None exactly when the
    computer has no legal move; the random one then answers None too.
   */
  lemma AnswerIsLegal(g: Game, proposal: Option<MovePair>)
    requires WellFormed(g) && StrategyAnswer(g, proposal)
    ensures proposal.Some? ==> Legal(g.board.grid, proposal.value.piece, proposal.value.target, Computer)
    ensures !g.strategy.RandomDraws? ==> (proposal.None? <==> GetMovesOfPlayer(g.board, Computer) == [])
    ensures GetMovesOfPlayer(g.board, Computer) == [] ==> proposal.None?
  {
    match g.strategy
    case IntelligentStrategy =>
      if proposal.Some? {
        assert proposal.value in GetMovesOfPlayer(g.board, Computer);
      }
    case CapturingStrategy =>
      Capturing.GetMoveAgreesWithMoveGeneration(g.board);
    case RandomDraws(draws) =>
      NoMoves(g.board, Computer);
  }

  /**
    The strategy for the turn after the computer's: the random strategy keeps
    only the draws behind the answer it gave, the others are unchanged.
   */
  function Advance(g: Game): (s: Strategy)
    requires WellFormed(g)
    ensures WellFormed(g.(strategy := s))
    ensures !g.strategy.RandomDraws? ==> s == g.strategy
    ensures g.strategy.RandomDraws? && RandomStrategy.GetMove(g.board, g.strategy.draws).Some? ==>
              s.RandomDraws? && RandomStrategy.DrawnUpTo(g.board, g.strategy.draws, RandomStrategy.GetMove(g.board, g.strategy.draws).value, s.draws)
  {
    match g.strategy
    case RandomDraws(draws) => RandomDraws(RandomStrategy.Unused(g.board, draws))
    case _ => g.strategy
  }

  /**
    The computer's turn: the strategy's answer, applied with the computer
    side, and the pair played. A strategy that proposes nothing makes the
    turn fail with `NoMove` and leaves the game unchanged; a proposal is
    never rejected by the board. The random strategy's generator moves on:
    the next turn draws from what follows the accepted pair.
   */
  method ComputerMove(g: Game) returns (next: Game, r: Result<MovePair, GameError>)
    requires WellFormed(g)
    ensures r.Ok? ==> StrategyAnswer(g, Some(r.value))
    ensures r.Err? ==> StrategyAnswer(g, None)
    ensures r.Err? ==> next == g && r.error == NoMove
    ensures r.Ok? ==> Legal(g.board.grid, r.value.piece, r.value.target, Computer)
    ensures r.Ok? ==> MovedOnly(g.board, next.board, r.value.piece, r.value.target, Computer)
    ensures r.Ok? ==> next.board == Move(g.board, r.value.piece, r.value.target, Computer).value
    ensures !g.strategy.RandomDraws? ==> (r.Err? <==> GetMovesOfPlayer(g.board, Computer) == [])
    ensures GetMovesOfPlayer(g.board, Computer) == [] ==> r.Err?
    ensures !g.strategy.RandomDraws? ==> next.strategy == g.strategy
    ensures r.Ok? && g.strategy.RandomDraws? ==>
              next.strategy.RandomDraws? && RandomStrategy.DrawnUpTo(g.board, g.strategy.draws, r.value, next.strategy.draws)
    ensures WellFormed(next)
    ensures Consistent(g.board) ==> Consistent(next.board)
  {
    var proposal := Propose(g);
    match proposal
    case None =>
      next, r := g, Err(NoMove);
    case Some(m) =>
      var applied := ApplyMove(g, m.piece, m.target, Computer);
      next := Game(applied.0.board, Advance(g));
      match applied.1
      case None => r := Ok(m);
      case Some(e) => r := Err(Rejected(e));
  }
}
