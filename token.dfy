/** Tokens and their source spans: src/lex/token.rs and src/lex/location.rs. */
module Tokens {
  import opened Wrappers
  import opened Positions

  /** `Location { begin, end }`. */
  datatype Location = Location(begin: Position, end: Position)

  /** `Token { token_type, token_value, token_location }`. */
  datatype Token = Token(tokenType: string, value: string, location: Option<Location>)
  {
    /** `set_location`: attaches the span and leaves type and text alone. */
    function SetLocation(begin: Position, end: Position): (t: Token)
      ensures t.tokenType == tokenType && t.value == value
      ensures t.location == Some(Location(begin, end))
    {
      this.(location := Some(Location(begin, end)))
    }

    /** `get_location`: the attached span, or (0,0)..(0,0) when there is none. */
    function GetLocation(): (l: Location)
      ensures location.Some? ==> l == location.value
      ensures location.None? ==> l.begin == NewZero() && l.end == NewZero()
    {
      match location
      case Some(loc) => loc
      case None => Location(NewZero(), NewZero())
    }
  }

  /** `Token::new`: the given type and text, no location yet. */
  function NewToken(tokenType: string, value: string): (t: Token)
    ensures t.tokenType == tokenType && t.value == value && t.location.None?
  {
    Token(tokenType, value, None)
  }

  /** A token fresh from `new` reports the zero span. */
  lemma NewTokenHasZeroLocation(tokenType: string, value: string)
    ensures NewToken(tokenType, value).GetLocation() == Location(Position(0, 0), Position(0, 0))
  {
  }

  /** `get_location` after `set_location(b, e)` gives back exactly (b, e), whatever was there before. */
  lemma SetThenGetLocation(t: Token, b: Position, e: Position)
    ensures t.SetLocation(b, e).GetLocation() == Location(b, e)
    ensures t.SetLocation(b, e).SetLocation(b, e) == t.SetLocation(b, e)
  {
  }
}
