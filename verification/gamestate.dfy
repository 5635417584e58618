/**
 * The castling and en passant fields of a FEN record (src/gamestate.rs):
 * the third and fourth space-separated fields of the whole record.
 */
module GameStates {
  import opened Text

  datatype Option<T> = None | Some(value: T)

  /**
   * Castling rights in the order white queen side (`Q`), white king side
   * (`K`), black queen side (`q`), black king side (`k`), and the en
   * passant target square, if any.
   */
  datatype GameState = GameState(castling: (bool, bool, bool, bool), enPassant: Option<int>)

  /** The en passant field is `-`, or has a file letter and a rank digit that do not underflow. */
  predicate EnPassantParses(field: string)
  {
    field == "-" || (|field| >= 2 && field[0] >= 'a' && field[1] >= '1')
  }

  /** `from_str` indexes fields 2 and 3 directly, and unwraps two characters of field 3. */
  predicate Parses(s: string)
  {
    |Split(s, ' ')| >= 4 && EnPassantParses(Split(s, ' ')[3])
  }

  /** The en passant square: `-` is none, anything else is `file + 8 * rank` of its first two characters. */
  function EnPassant(field: string): (r: Option<int>)
    requires EnPassantParses(field)
    ensures r == None <==> field == "-"
    ensures r != None && 'a' <= field[0] <= 'h' && '1' <= field[1] <= '8' ==>
      0 <= r.value < 64 && r.value % 8 == field[0] as int - 'a' as int && r.value / 8 == field[1] as int - '1' as int
  {
    if field == "-" then None
    else
      var file := field[0] as int - 'a' as int;
      var rank := field[1] as int - '1' as int;
      Some(file + 8 * rank)
  }

  /** `GameState::from_str` on the whole FEN record; it never fails. */
  function FromStr(s: string): (r: GameState)
    requires Parses(s)
    ensures r.castling.0 <==> 'Q' in Split(s, ' ')[2]
    ensures r.castling.1 <==> 'K' in Split(s, ' ')[2]
    ensures r.castling.2 <==> 'q' in Split(s, ' ')[2]
    ensures r.castling.3 <==> 'k' in Split(s, ' ')[2]
    ensures r.enPassant == None <==> Split(s, ' ')[3] == "-"
    ensures r.enPassant == EnPassant(Split(s, ' ')[3])
  {
    var fields := Split(s, ' ');
    var rights := fields[2];
    GameState(('Q' in rights, 'K' in rights, 'q' in rights, 'k' in rights), EnPassant(fields[3]))
  }

  /** The algebraic name of a square: file letter, then rank digit. */
  function SquareName(sq: int): (name: string)
    requires 0 <= sq < 64
    ensures |name| == 2 && 'a' <= name[0] <= 'h' && '1' <= name[1] <= '8'
  {
    [('a' as int + sq % 8) as char, ('1' as int + sq / 8) as char]
  }

  /** Reading a square's name as an en passant field gives the square back. */
  lemma EnPassantName(sq: int)
    requires 0 <= sq < 64
    ensures EnPassant(SquareName(sq)) == Some(sq)
  {
    var name := SquareName(sq);
    assert name[0] as int - 'a' as int == sq % 8;
    assert name[1] as int - '1' as int == sq / 8;
  }

  /** The castling flags depend only on which letters the field holds, not on their order. */
  lemma CastlingOrderFree(s: string, t: string)
    requires Parses(s) && Parses(t)
    requires forall c :: c in Split(s, ' ')[2] <==> c in Split(t, ' ')[2]
    ensures FromStr(s).castling == FromStr(t).castling
  {}

  /** `-` grants no castling rights. */
  lemma NoCastling(s: string)
    requires Parses(s) && Split(s, ' ')[2] == "-"
    ensures FromStr(s).castling == (false, false, false, false)
  {}
}
