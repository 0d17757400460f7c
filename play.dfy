/** The free-play page (app/play/page.js): one game between the human,
    who plays White by dragging pieces, and an AI that plays Black through
    the move oracle. The page keeps the live position, a difficulty, a
    started flag and a history of positions with a browsing cursor. */
module Play {
  import opened Wrappers
  import opened Collaborators

  datatype Difficulty = Easy | Medium | Hard

  // ---------------------------------------------------------------------
  // Trimming the oracle's reply (String.prototype.trim)
  // ---------------------------------------------------------------------

  /** The characters ECMAScript's `trim` removes: WhiteSpace (tab,
      vertical tab, form feed, zero-width no-break space and every space
      separator) and LineTerminator. */
  predicate IsJsSpace(c: char) {
    || c == '\U{0009}' || c == '\U{000B}' || c == '\U{000C}' || c == '\U{0020}'
    || c == '\U{00A0}' || c == '\U{FEFF}' || c == '\U{1680}'
    || ('\U{2000}' <= c <= '\U{200A}')
    || c == '\U{202F}' || c == '\U{205F}' || c == '\U{3000}'
    || c == '\U{000A}' || c == '\U{000D}' || c == '\U{2028}' || c == '\U{2029}'
  }

  ghost predicate AllSpace(w: string) {
    forall i :: 0 <= i < |w| ==> IsJsSpace(w[i])
  }

  /** A string with nothing for `trim` to remove. */
  predicate Trimmed(t: string) {
    t == [] || (!IsJsSpace(t[0]) && !IsJsSpace(t[|t| - 1]))
  }

  /** The length of the leading run of white space. */
  function LeadingSpace(s: string): (k: nat)
    ensures k <= |s|
    ensures forall j :: 0 <= j < k ==> IsJsSpace(s[j])
    ensures k < |s| ==> !IsJsSpace(s[k])
  {
    if s == [] || !IsJsSpace(s[0]) then 0 else 1 + LeadingSpace(s[1..])
  }

  /** The length of `s` without its trailing run of white space. */
  function TrailingSpaceStart(s: string): (k: nat)
    ensures k <= |s|
    ensures forall j :: k <= j < |s| ==> IsJsSpace(s[j])
    ensures 0 < k ==> !IsJsSpace(s[k - 1])
  {
    if s == [] || !IsJsSpace(s[|s| - 1]) then |s| else TrailingSpaceStart(s[..|s| - 1])
  }

  function Trim(s: string): (t: string)
    ensures Trimmed(t)
    ensures |t| <= |s|
    ensures t == [] <==> AllSpace(s)
  {
    var a := LeadingSpace(s);
    var b := TrailingSpaceStart(s[a..]);
    TrimBounds(s, a, b);
    s[a..][..b]
  }

  lemma TrimBounds(s: string, a: nat, b: nat)
    requires a == LeadingSpace(s) && b == TrailingSpaceStart(s[a..])
    ensures Trimmed(s[a..][..b])
    ensures s[a..][..b] == [] <==> AllSpace(s)
  {
    var rest := s[a..];
    if b > 0 {
      assert rest[0] == s[a];
      assert s[a..][..b][b - 1] == rest[b - 1];
      assert !AllSpace(s) by { assert !IsJsSpace(s[a]); }
    } else {
      assert a == |s|;
    }
  }

  /** `trim` strips exactly the white-space padding around a trimmed core,
      so the trimmed text is determined by the reply and nothing else. */
  lemma {:induction false} TrimStripsPadding(lead: string, core: string, trail: string)
    requires AllSpace(lead) && AllSpace(trail) && Trimmed(core)
    ensures Trim(lead + core + trail) == core
  {
    var s := lead + core + trail;
    var a := LeadingSpace(s);
    if core == [] {
      assert s == lead + trail;
      assert AllSpace(s) by {
        forall j | 0 <= j < |s| ensures IsJsSpace(s[j]) {
          if j < |lead| { assert s[j] == lead[j]; } else { assert s[j] == trail[j - |lead|]; }
        }
      }
    } else {
      assert s[|lead|] == core[0];
      assert a == |lead|;
      var rest := s[a..];
      assert rest == core + trail;
      var b := TrailingSpaceStart(rest);
      assert rest[|core| - 1] == core[|core| - 1];
      assert b == |core|;
      assert rest[..b] == core;
    }
  }

  /** Trimming twice is trimming once. */
  lemma TrimIdempotent(s: string)
    ensures Trim(Trim(s)) == Trim(s)
  {
    TrimStripsPadding([], Trim(s), []);
    assert [] + Trim(s) + [] == Trim(s);
  }

  // ---------------------------------------------------------------------
  // Choosing the AI's move (getAIMove)
  // ---------------------------------------------------------------------

  /** `Math.floor(Math.random() * n)` for a draw `r` of `Math.random()`. */
  function FallbackIndex(r: real, n: nat): (i: nat)
    requires 0.0 <= r < 1.0 && 0 < n
    ensures i < n
  {
    var x := r * n as real;
    assert 0.0 <= x < n as real by {
      assert r * (n as real) < 1.0 * (n as real);
    }
    x.Floor
  }

  /** Every legal move can be the fallback: some draw picks index `i`. */
  lemma FallbackReachesEveryIndex(n: nat, i: nat)
    requires i < n
    ensures 0.0 <= i as real / n as real < 1.0
    ensures FallbackIndex(i as real / n as real, n) == i
  {
    var r := i as real / n as real;
    assert r * n as real == i as real;
  }

  /** The move the page plays for Black, from the legal moves, the
      oracle's reply and a random draw: the trimmed reply when it is
      legal, otherwise a random legal move; nothing when the oracle call
      failed or there is no legal move (chess.js refuses `undefined`). */
  function ChooseAIMove(moves: seq<string>, reply: OracleReply, r: real): (m: Option<string>)
    requires 0.0 <= r < 1.0
    ensures m.Some? ==> m.value in moves
    ensures reply.Failed? || moves == [] ==> m.None?
    ensures reply.Replied? && moves != [] ==> m.Some?
    ensures reply.Replied? && Trim(reply.text) in moves ==> m == Some(Trim(reply.text))
    ensures reply.Replied? && Trim(reply.text) !in moves && moves != [] ==>
              m == Some(moves[FallbackIndex(r, |moves|)])
  {
    match reply
    case Failed => None
    case Replied(text) =>
      var aiMove := Trim(text);
      if aiMove in moves then Some(aiMove)
      else if moves == [] then None
      else Some(moves[FallbackIndex(r, |moves|)])
  }

  // ---------------------------------------------------------------------
  // The page's state and handlers
  // ---------------------------------------------------------------------

  class PlaySession {
    const engine: Engine
    var game: Fen
    var mode: Difficulty
    var gameStarted: bool
    var moveHistory: seq<Fen>
    var moveIndex: int

    /** The history is empty exactly when no game is started; otherwise
        the cursor is inside it and the board shows the entry under the
        cursor. */
    ghost predicate Valid()
      reads this
    {
      && 0 <= moveIndex
      && (gameStarted <==> moveHistory != [])
      && (moveHistory == [] ==> moveIndex == 0 && game == StartFen)
      && (moveHistory != [] ==> moveIndex < |moveHistory| && game == moveHistory[moveIndex])
    }

    constructor (engine: Engine)
      ensures Valid() && this.engine == engine
      ensures game == StartFen && mode == Easy && !gameStarted
      ensures moveHistory == [] && moveIndex == 0
    {
      this.engine := engine;
      game := StartFen;
      mode := Easy;
      gameStarted := false;
      moveHistory := [];
      moveIndex := 0;
    }

    /** makeAMove: a move the engine accepts drops the history after the
        cursor, appends the new position and puts the cursor on it; a
        rejected move changes nothing. */
    method MakeAMove(move: MoveIntent) returns (result: Option<Applied>)
      requires Valid() && gameStarted
      modifies this
      ensures Valid() && gameStarted && mode == old(mode)
      ensures result == engine.apply(old(game), move)
      ensures result.Some? ==>
                && game == result.value.fen
                && moveHistory == old(moveHistory[..moveIndex + 1]) + [result.value.fen]
                && moveIndex == old(moveIndex) + 1 == |moveHistory| - 1
      ensures result.None? ==>
                game == old(game) && moveHistory == old(moveHistory) && moveIndex == old(moveIndex)
    {
      result := engine.apply(game, move);
      if result.Some? {
        game := result.value.fen;
        moveHistory := moveHistory[..moveIndex + 1] + [result.value.fen];
        moveIndex := moveIndex + 1;
      }
    }

    /** onDrop: a drag is tried only in a started game with White to
        move, always promoting to a queen; it is accepted exactly when the
        engine accepts it. */
    method OnDrop(sourceSquare: string, targetSquare: string) returns (accepted: bool)
      requires Valid()
      modifies this
      ensures Valid() && mode == old(mode) && gameStarted == old(gameStarted)
      ensures accepted <==>
                && old(gameStarted) && engine.turn(old(game)) == White
                && engine.apply(old(game), Drag(sourceSquare, targetSquare, 'q')).Some?
      ensures accepted ==>
                && game == engine.apply(old(game), Drag(sourceSquare, targetSquare, 'q')).value.fen
                && moveHistory == old(moveHistory[..moveIndex + 1]) + [game]
                && moveIndex == old(moveIndex) + 1
      ensures !accepted ==>
                game == old(game) && moveHistory == old(moveHistory) && moveIndex == old(moveIndex)
    {
      if !gameStarted || engine.turn(game) != White {
        return false;
      }
      var result := MakeAMove(Drag(sourceSquare, targetSquare, 'q'));
      accepted := result.Some?;
    }

    /** handleModeChange touches the difficulty and nothing else. */
    method HandleModeChange(newMode: Difficulty)
      requires Valid()
      modifies this`mode
      ensures Valid() && mode == newMode
    {
      mode := newMode;
    }

    /** handleGameStart (the "Reset" button): a started game at the
        starting position whose history holds that position alone. */
    method HandleGameStart()
      requires Valid()
      modifies this`gameStarted, this`game, this`moveHistory, this`moveIndex
      ensures Valid() && gameStarted && game == StartFen
      ensures moveHistory == [StartFen] && moveIndex == 0
    {
      gameStarted := true;
      game := StartFen;
      moveHistory := [StartFen];
      moveIndex := 0;
    }

    /** handleGameExit (the "Resign" button): no game, an empty history. */
    method HandleGameExit()
      requires Valid()
      modifies this`gameStarted, this`game, this`moveHistory, this`moveIndex
      ensures Valid() && !gameStarted && game == StartFen
      ensures moveHistory == [] && moveIndex == 0
    {
      gameStarted := false;
      game := StartFen;
      moveHistory := [];
      moveIndex := 0;
    }

    /** handlePrevMove: in easy mode with an earlier entry, the cursor
        steps back one and the board shows that entry; otherwise nothing
        changes. */
    method HandlePrevMove()
      requires Valid()
      modifies this`moveIndex, this`game
      ensures Valid()
      ensures if mode == Easy && old(moveIndex) > 0
              then moveIndex == old(moveIndex) - 1 && game == moveHistory[moveIndex]
              else moveIndex == old(moveIndex) && game == old(game)
    {
      if mode != Easy || moveIndex <= 0 {
        return;
      }
      moveIndex := moveIndex - 1;
      game := moveHistory[moveIndex];
    }

    /** handleNextMove: in easy mode with a later entry, the cursor steps
        forward one and the board shows that entry; otherwise nothing
        changes. */
    method HandleNextMove()
      requires Valid()
      modifies this`moveIndex, this`game
      ensures Valid()
      ensures if mode == Easy && old(moveIndex) < |moveHistory| - 1
              then moveIndex == old(moveIndex) + 1 && game == moveHistory[moveIndex]
              else moveIndex == old(moveIndex) && game == old(game)
    {
      if mode != Easy || moveIndex >= |moveHistory| - 1 {
        return;
      }
      moveIndex := moveIndex + 1;
      game := moveHistory[moveIndex];
    }

    /** handleAIMove and getAIMove: in a started game with Black to move,
        the move chosen from the oracle's reply (or the random fallback) is
        played through makeAMove; a failed oracle call, or any other
        moment, leaves everything as it was. The draw `r` stands for
        `Math.random()`. */
    method AIMove(reply: OracleReply, r: real) returns (chosen: Option<string>, result: Option<Applied>)
      requires Valid() && 0.0 <= r < 1.0
      modifies this
      ensures Valid() && mode == old(mode) && gameStarted == old(gameStarted)
      ensures chosen == (if old(gameStarted) && engine.turn(old(game)) == Black
                         then ChooseAIMove(engine.moves(old(game)), reply, r) else None)
      ensures chosen.Some? ==> chosen.value in engine.moves(old(game))
      ensures result == (if chosen.Some? then engine.apply(old(game), San(chosen.value)) else None)
      ensures engine.Sound() && chosen.Some? ==> result.Some?
      ensures result.Some? ==>
                && game == result.value.fen
                && moveHistory == old(moveHistory[..moveIndex + 1]) + [game]
                && moveIndex == old(moveIndex) + 1
      ensures result.None? ==>
                game == old(game) && moveHistory == old(moveHistory) && moveIndex == old(moveIndex)
    {
      chosen, result := None, None;
      if !gameStarted || engine.turn(game) != Black {
        return;
      }
      chosen := ChooseAIMove(engine.moves(game), reply, r);
      if chosen.Some? {
        result := MakeAMove(San(chosen.value));
      }
    }
  }
}
