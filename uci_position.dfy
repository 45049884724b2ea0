/**
 * The `position` and `ucinewgame` commands: the handler's board is reset to
 * the starting position or set from a FEN string, then the listed moves are
 * replayed on it. The rules library is an oracle: which FEN strings it
 * accepts and whose turn they give, which UCI move strings it reads as a
 * move, and which moves are legal on a board.
 */
module UciPosition {
  import opened Wrappers
  import opened GameTree
  import GoTime

  /** How a board was set up before any move was played on it. */
  datatype Setup = StartPos | FromFen(fen: string)

  /** A board of the rules library: its setup and the moves pushed on it, in order. */
  datatype ChessBoard = ChessBoard(setup: Setup, played: seq<Move>)

  /**
   * The rules library's services: whether a FEN string is accepted (the
   * board constructor raises otherwise), whether it gives White the move,
   * the move a UCI move string denotes (None where reading it raises), and
   * whether a move is among a board's legal moves.
   */
  datatype Rules = Rules(
    fenValid: string -> bool,
    fenWhiteToMove: string -> bool,
    parseMove: string -> Option<Move>,
    legal: (ChessBoard, Move) -> bool)

  /** A new board: the starting position, nothing played. */
  const NewBoard: ChessBoard := ChessBoard(StartPos, [])

  /** The board with one more move pushed. */
  function Push(b: ChessBoard, m: Move): ChessBoard
  {
    b.(played := b.played + [m])
  }

  /** The side to move alternates with every move pushed, from the side the setup gives. */
  function WhiteToMove(r: Rules, b: ChessBoard): bool
  {
    var first := match b.setup case StartPos => true case FromFen(f) => r.fenWhiteToMove(f);
    if |b.played| % 2 == 0 then first else !first
  }

  /** The tokens joined with single spaces. */
  function Join(ts: seq<string>): string
  {
    if ts == [] then ""
    else if |ts| == 1 then ts[0]
    else ts[0] + " " + Join(ts[1..])
  }

  /** The position of the first occurrence of x. */
  function IndexOf(ts: seq<string>, x: string): (k: Option<nat>)
    ensures k.Some? ==> k.value < |ts| && ts[k.value] == x && x !in ts[..k.value]
    ensures k.None? ==> x !in ts
  {
    if ts == [] then None
    else if ts[0] == x then Some(0)
    else match IndexOf(ts[1..], x)
      case None => None
      case Some(k) => assert ts[..k + 1] == [ts[0]] + ts[1..][..k]; Some(k + 1)
  }

  /** What a `position` command asks for: how to set the board up, and the move tokens to replay. */
  datatype Request = Request(setup: Setup, moveTokens: seq<string>)

  /**
   * The command's tokens after `position`: `startpos`, optionally followed by
   * `moves` and the moves; or `fen`, the FEN's fields up to the first
   * `moves`, and the moves after it. Anything else, including no tokens,
   * asks for nothing.
   */
  function ParseRequest(tokens: seq<string>): Option<Request>
  {
    if tokens == [] then None
    else if tokens[0] == "startpos" then
      Some(Request(StartPos, if |tokens| > 1 && tokens[1] == "moves" then tokens[2..] else []))
    else if tokens[0] == "fen" then
      match IndexOf(tokens, "moves")
      case Some(k) => Some(Request(FromFen(Join(tokens[1..k])), tokens[k + 1..]))
      case None => Some(Request(FromFen(Join(tokens[1..])), []))
    else None
  }

  /** The fresh board a request starts from; None when the FEN is refused. */
  function SetUp(r: Rules, s: Setup): Option<ChessBoard>
  {
    match s
    case StartPos => Some(NewBoard)
    case FromFen(f) => if r.fenValid(f) then Some(ChessBoard(FromFen(f), [])) else None
  }

  /**
   * The handler's replay: each move is pushed if legal; the first illegal
   * move ends the replay, and so does a token that is not a move, whose
   * error the handler catches.
   */
  function ReplayUntilIllegal(r: Rules, b: ChessBoard, ms: seq<string>): ChessBoard
    decreases |ms|
  {
    if ms == [] then b
    else match r.parseMove(ms[0])
      case None => b
      case Some(m) => if r.legal(b, m) then ReplayUntilIllegal(r, Push(b, m), ms[1..]) else b
  }

  /**
   * The single-file engine's replay: an illegal move is passed over and
   * the replay goes on; a token that is not a move still ends it, its error
   * being caught by the command loop.
   */
  function ReplaySkippingIllegal(r: Rules, b: ChessBoard, ms: seq<string>): ChessBoard
    decreases |ms|
  {
    if ms == [] then b
    else match r.parseMove(ms[0])
      case None => b
      case Some(m) => ReplaySkippingIllegal(r, if r.legal(b, m) then Push(b, m) else b, ms[1..])
  }

  /** The handler's board after a `position` command: unchanged when nothing is asked or the FEN is refused. */
  function AfterPosition(r: Rules, b: ChessBoard, tokens: seq<string>): ChessBoard
  {
    match ParseRequest(tokens)
    case None => b
    case Some(req) =>
      match SetUp(r, req.setup)
      case None => b
      case Some(b0) => ReplayUntilIllegal(r, b0, req.moveTokens)
  }

  /** The single-file engine's board after a `position` command. */
  function SnapshotAfterPosition(r: Rules, b: ChessBoard, tokens: seq<string>): ChessBoard
  {
    match ParseRequest(tokens)
    case None => b
    case Some(req) =>
      match SetUp(r, req.setup)
      case None => b
      case Some(b0) => ReplaySkippingIllegal(r, b0, req.moveTokens)
  }

  /** The protocol handler's board, the only part of its state modelled here. */
  class UciHandler {
    const rules: Rules
    var board: ChessBoard

    /** A handler starts on a new board. */
    constructor (rules: Rules)
      ensures this.rules == rules && board == NewBoard
    {
      this.rules := rules;
      board := NewBoard;
    }

    /** `ucinewgame`: back to a new board. */
    method HandleUcinewgame()
      modifies this
      ensures board == NewBoard
    {
      board := NewBoard;
    }

    /** `position`: set the board up as asked, then replay the moves until one is refused. */
    method HandlePosition(tokens: seq<string>)
      modifies this
      ensures board == AfterPosition(rules, old(board), tokens)
    {
      if tokens == [] {
        return;
      }
      var moveTokens: seq<string>;
      if tokens[0] == "startpos" {
        board := NewBoard;
        moveTokens := if |tokens| > 1 && tokens[1] == "moves" then tokens[2..] else [];
      } else if tokens[0] == "fen" {
        var fen: string;
        var idx := IndexOf(tokens, "moves");
        if idx.Some? {
          fen := Join(tokens[1..idx.value]);
          moveTokens := tokens[idx.value + 1..];
        } else {
          fen := Join(tokens[1..]);
          moveTokens := [];
        }
        if !rules.fenValid(fen) {
          return;
        }
        board := ChessBoard(FromFen(fen), []);
      } else {
        return;
      }
      ReplayMoves(moveTokens);
    }

    /** Push the moves the tokens denote, one by one, until one is not a move or not legal. */
    method ReplayMoves(moveTokens: seq<string>)
      modifies this
      ensures board == ReplayUntilIllegal(rules, old(board), moveTokens)
    {
      ghost var target := ReplayUntilIllegal(rules, board, moveTokens);
      var i := 0;
      while i < |moveTokens|
        invariant 0 <= i <= |moveTokens|
        invariant ReplayUntilIllegal(rules, board, moveTokens[i..]) == target
      {
        var m := rules.parseMove(moveTokens[i]);
        if m.None? {
          return;
        }
        if !rules.legal(board, m.value) {
          break;
        }
        board := Push(board, m.value);
        i := i + 1;
      }
    }

    /** `go`: the time budget of the command's tokens for the side to move on the handler's board. */
    method ParseGoTime(tokens: seq<string>) returns (ms: int)
      ensures ms == GoTime.Budget(GoTime.Params(tokens), WhiteToMove(rules, board))
    {
      ms := GoTime.ParseGoTime(tokens, WhiteToMove(rules, board));
    }
  }

  /** The single-file engine's `position` branch, on the command loop's board. */
  method SnapshotPosition(rules: Rules, board: ChessBoard, tokens: seq<string>) returns (result: ChessBoard)
    ensures result == SnapshotAfterPosition(rules, board, tokens)
  {
    result := board;
    if tokens == [] {
      return;
    }
    var moveTokens: seq<string>;
    if tokens[0] == "startpos" {
      result := NewBoard;
      moveTokens := if |tokens| > 1 && tokens[1] == "moves" then tokens[2..] else [];
    } else if tokens[0] == "fen" {
      var idx := IndexOf(tokens, "moves");
      var fen := if idx.Some? then Join(tokens[1..idx.value]) else Join(tokens[1..]);
      moveTokens := if idx.Some? then tokens[idx.value + 1..] else [];
      if !rules.fenValid(fen) {
        return;
      }
      result := ChessBoard(FromFen(fen), []);
    } else {
      return;
    }
    result := SkipReplay(rules, result, moveTokens);
  }

  /** The single-file engine's replay loop: illegal moves are passed over, a token that is not a move ends it. */
  method SkipReplay(rules: Rules, board: ChessBoard, moveTokens: seq<string>) returns (result: ChessBoard)
    ensures result == ReplaySkippingIllegal(rules, board, moveTokens)
  {
    result := board;
    for i := 0 to |moveTokens|
      invariant ReplaySkippingIllegal(rules, result, moveTokens[i..]) == ReplaySkippingIllegal(rules, board, moveTokens)
    {
      var m := rules.parseMove(moveTokens[i]);
      if m.None? {
        return;
      }
      if rules.legal(result, m.value) {
        result := Push(result, m.value);
      }
    }
  }

  /** Every move played on the board from position `from` on was legal on the board before it. */
  ghost predicate LegalFrom(r: Rules, setup: Setup, played: seq<Move>, from: nat)
  {
    forall j :: from <= j < |played| ==> r.legal(ChessBoard(setup, played[..j]), played[j])
  }

  /**
   * The handler's replay pushes the moves the leading tokens denote, each
   * legal where it is played, keeps the board's setup and earlier moves,
   * and stops exactly at the first token that is not a move or not legal.
   */
  lemma {:induction false} UntilIllegalStopsAtFirstRefusal(r: Rules, b: ChessBoard, ms: seq<string>)
    ensures var res := ReplayUntilIllegal(r, b, ms);
      var n := |b.played|;
      var k := |res.played| - n;
      && res.setup == b.setup
      && n <= |res.played| <= n + |ms|
      && res.played[..n] == b.played
      && (forall j :: 0 <= j < k ==> r.parseMove(ms[j]) == Some(res.played[n + j]))
      && LegalFrom(r, b.setup, res.played, n)
      && (k < |ms| ==> r.parseMove(ms[k]).None? || !r.legal(res, r.parseMove(ms[k]).value))
    decreases |ms|
  {
    if ms != [] && r.parseMove(ms[0]).Some? && r.legal(b, r.parseMove(ms[0]).value) {
      var m := r.parseMove(ms[0]).value;
      var b' := Push(b, m);
      var res := ReplayUntilIllegal(r, b', ms[1..]);
      assert res == ReplayUntilIllegal(r, b, ms);
      UntilIllegalStopsAtFirstRefusal(r, b', ms[1..]);
      var n := |b.played|;
      assert res.played[..n] == res.played[..n + 1][..n];
      assert res.played[n] == m by {
        assert res.played[..n + 1][n] == b'.played[n];
      }
      forall j | 0 <= j < |res.played| - n ensures r.parseMove(ms[j]) == Some(res.played[n + j]) {
        if j > 0 {
          assert ms[1..][j - 1] == ms[j];
        }
      }
      forall j | n <= j < |res.played| ensures r.legal(ChessBoard(b.setup, res.played[..j]), res.played[j]) {
        if j == n {
          assert res.played[..n] == b.played;
        }
      }
      var k := |res.played| - n;
      if k < |ms| {
        assert ms[1..][k - 1] == ms[k];
      }
    }
  }

  /**
   * The single-file engine's replay also keeps the setup and the earlier
   * moves and plays only legal moves, at most one per token.
   */
  lemma {:induction false} SkippingPlaysOnlyLegalMoves(r: Rules, b: ChessBoard, ms: seq<string>)
    ensures var res := ReplaySkippingIllegal(r, b, ms);
      && res.setup == b.setup
      && |b.played| <= |res.played| <= |b.played| + |ms|
      && res.played[..|b.played|] == b.played
      && LegalFrom(r, b.setup, res.played, |b.played|)
    decreases |ms|
  {
    if ms != [] && r.parseMove(ms[0]).Some? {
      var m := r.parseMove(ms[0]).value;
      var b' := if r.legal(b, m) then Push(b, m) else b;
      SkippingPlaysOnlyLegalMoves(r, b', ms[1..]);
      var res := ReplaySkippingIllegal(r, b', ms[1..]);
      var n := |b.played|;
      assert res.played[..n] == res.played[..|b'.played|][..n];
      forall j | n <= j < |res.played| ensures r.legal(ChessBoard(b.setup, res.played[..j]), res.played[j]) {
        if j == n && r.legal(b, m) {
          assert res.played[..n] == b.played;
          assert res.played[n] == res.played[..n + 1][n];
        }
      }
    }
  }

  /** When every token is a move legal in turn, the two replays play the same moves. */
  lemma {:induction false} ReplaysAgreeOnLegalLines(r: Rules, b: ChessBoard, ms: seq<string>)
    requires |ReplayUntilIllegal(r, b, ms).played| == |b.played| + |ms|
    ensures ReplaySkippingIllegal(r, b, ms) == ReplayUntilIllegal(r, b, ms)
    decreases |ms|
  {
    if ms != [] && r.parseMove(ms[0]).Some? && r.legal(b, r.parseMove(ms[0]).value) {
      ReplaysAgreeOnLegalLines(r, Push(b, r.parseMove(ms[0]).value), ms[1..]);
    }
  }

  /**
   * The replays differ on an illegal move followed by a legal one: the
   * handler stops at the illegal move, the single-file engine passes over
   * it and plays the next.
   */
  lemma ReplaysDiverge(r: Rules, b: ChessBoard, x: string, y: string)
    requires r.parseMove(x).Some? && !r.legal(b, r.parseMove(x).value)
    requires r.parseMove(y).Some? && r.legal(b, r.parseMove(y).value)
    ensures ReplayUntilIllegal(r, b, [x, y]) == b
    ensures ReplaySkippingIllegal(r, b, [x, y]) == Push(b, r.parseMove(y).value)
  {
    assert [x, y][1..] == [y];
    assert [y][1..] == [];
    var b' := Push(b, r.parseMove(y).value);
    assert ReplaySkippingIllegal(r, b, [x, y]) == ReplaySkippingIllegal(r, b, [y]);
    assert ReplaySkippingIllegal(r, b, [y]) == ReplaySkippingIllegal(r, b', []);
  }

  /**
   * How the tokens are read: with `startpos` the moves are replayed only
   * when the second token is `moves`; with `fen` the FEN is the tokens
   * before the first `moves`, joined by spaces, and the moves are those after it.
   */
  lemma RequestTokens(tokens: seq<string>, k: nat)
    ensures |tokens| >= 1 && tokens[0] == "startpos" ==>
      ParseRequest(tokens) == Some(Request(StartPos, if |tokens| >= 2 && tokens[1] == "moves" then tokens[2..] else []))
    ensures 0 < k < |tokens| && tokens[0] == "fen" && tokens[k] == "moves" && "moves" !in tokens[..k] ==>
      ParseRequest(tokens) == Some(Request(FromFen(Join(tokens[1..k])), tokens[k + 1..]))
    ensures |tokens| >= 1 && tokens[0] == "fen" && "moves" !in tokens ==>
      ParseRequest(tokens) == Some(Request(FromFen(Join(tokens[1..])), []))
  {
    if 0 < k < |tokens| && tokens[0] == "fen" && tokens[k] == "moves" && "moves" !in tokens[..k] {
      var idx := IndexOf(tokens, "moves");
      assert tokens[..idx.value] == tokens[..k];
    }
  }

  /**
   * No tokens, an unknown position type or a refused FEN leave the board as
   * it was; `startpos` and an accepted FEN replace it whatever it was.
   */
  lemma PositionKeepsOrReplaces(r: Rules, b1: ChessBoard, b2: ChessBoard, tokens: seq<string>)
    ensures ParseRequest(tokens) == None ==> AfterPosition(r, b1, tokens) == b1 && SnapshotAfterPosition(r, b1, tokens) == b1
    ensures tokens == [] || (tokens[0] != "startpos" && tokens[0] != "fen") ==> ParseRequest(tokens) == None
    ensures (ParseRequest(tokens).Some? && SetUp(r, ParseRequest(tokens).value.setup).None?) ==>
      AfterPosition(r, b1, tokens) == b1 && SnapshotAfterPosition(r, b1, tokens) == b1
    ensures (ParseRequest(tokens).Some? && SetUp(r, ParseRequest(tokens).value.setup).Some?) ==>
      AfterPosition(r, b1, tokens) == AfterPosition(r, b2, tokens)
      && SnapshotAfterPosition(r, b1, tokens) == SnapshotAfterPosition(r, b2, tokens)
    ensures |tokens| >= 1 && tokens[0] == "startpos" ==> AfterPosition(r, b1, tokens).setup == StartPos
  {
    if |tokens| >= 1 && tokens[0] == "startpos" {
      var req := ParseRequest(tokens).value;
      UntilIllegalStopsAtFirstRefusal(r, NewBoard, req.moveTokens);
    }
  }

  /** Each move pushed hands the turn to the other side. */
  lemma PushFlipsTurn(r: Rules, b: ChessBoard, m: Move)
    ensures WhiteToMove(r, Push(b, m)) == !WhiteToMove(r, b)
  {
  }
}
