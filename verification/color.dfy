/** The side colour of src/color.rs and its negation. */
module Colors {

  datatype Color = White | Black

  /** `!color`: the other side. */
  function Not(c: Color): (r: Color)
    ensures r != c
  {
    match c
    case White => Black
    case Black => White
  }

  /** Negating twice gives the colour back, so `Not` is a bijection on the two colours. */
  lemma NotInvolutive(c: Color)
    ensures Not(Not(c)) == c
    ensures Not(c) == White <==> c == Black
  {}
}
