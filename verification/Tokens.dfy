/** Minted surrogate tokens and the record of what one request minted. */
module Tokens {

  datatype SurrogateToken = SurrogateToken(
    token: string,
    entityType: string,
    tag: string,
    canonical: string,
    original: string
  )

  datatype Option<+T> = None | Some(value: T)

  datatype Result<+T, +E> = Ok(value: T) | Err(error: E)

  /** The tokens minted while handling one request; a fresh one is made for every request. */
  class TokenProvenance {
    var byToken: map<string, SurrogateToken>

    constructor ()
      ensures byToken == map[]
    {
      byToken := map[];
    }

    method Record(surrogate: SurrogateToken)
      modifies this
      ensures byToken == old(byToken)[surrogate.token := surrogate]
    {
      byToken := byToken[surrogate.token := surrogate];
    }

    function Lookup(token: string): Option<SurrogateToken>
      reads this
    {
      if token in byToken then Some(byToken[token]) else None
    }
  }
}
