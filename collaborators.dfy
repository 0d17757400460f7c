/** The collaborators the pages call but whose code is not part of this
    model: the chess.js rules engine and the `/api/openai` move and hint
    oracle. */
module Collaborators {
  import opened Wrappers

  /** A position, exchanged as its FEN text, as the source stores FENs in
      its move history. */
  type Fen = string

  /** The FEN of `new Chess()`, the standard starting position. */
  const StartFen: Fen := "rnbqkbnr/pppppppp/8/8/8/8/PPPPPPPP/RNBQKBNR w KQkq - 0 1"

  datatype Color = White | Black

  /** What `game.move(...)` is given: a move in standard algebraic
      notation, or a drag from one square to another with a promotion
      piece. */
  datatype MoveIntent =
    | San(san: string)
    | Drag(from: string, to: string, promotion: char)

  /** What chess.js reports for an accepted move: the resulting position
      and the move's standard algebraic notation. */
  datatype Applied = Applied(fen: Fen, san: string)

  /** The rules engine, left abstract: whose turn it is, the legal moves
      (in standard algebraic notation, as `game.moves()` lists them), and
      a partial move application that gives `None` for a move the engine
      rejects (chess.js returns null or throws; either way nothing
      changes). */
  datatype Engine = Engine(
    turn: Fen -> Color,
    moves: Fen -> seq<string>,
    apply: (Fen, MoveIntent) -> Option<Applied>)
  {
    /** chess.js accepts every move that `moves()` lists. */
    ghost predicate Sound() {
      forall p: Fen, s: string :: s in moves(p) ==> apply(p, San(s)).Some?
    }
  }

  /** The outcome of a POST to `/api/openai`: a failed request (a non-ok
      status, a network error, or a body without a usable `response`)
      or the text of the reply. */
  datatype OracleReply = Failed | Replied(text: string)
}
