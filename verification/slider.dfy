/** The balance-bar selector of the music bar: which of the three volume
    sliders (balance, left channel, right channel) is on display. */
module Slider {

  datatype SliderIndex = Balance | Left | Right

  /** The derived `Default` of the enum. */
  function Default(): (s: SliderIndex)
    ensures s.Balance?
  {
    Balance
  }

  /** The `>` button: Balance, then Left, then Right, then Balance again. */
  function Next(s: SliderIndex): (r: SliderIndex)
    ensures s.Balance? ==> r.Left?
    ensures s.Left? ==> r.Right?
    ensures s.Right? ==> r.Balance?
    ensures r != s
  {
    match s
    case Balance => Left
    case Left => Right
    case Right => Balance
  }

  /** The `<` button: the same cycle walked the other way. */
  function Pre(s: SliderIndex): (r: SliderIndex)
    ensures s.Balance? ==> r.Right?
    ensures s.Left? ==> r.Balance?
    ensures s.Right? ==> r.Left?
    ensures r != s
  {
    match s
    case Balance => Right
    case Left => Balance
    case Right => Left
  }

  /** `Pre` undoes `Next` and `Next` undoes `Pre`. */
  lemma PreNextInverse(s: SliderIndex)
    ensures Pre(Next(s)) == s
    ensures Next(Pre(s)) == s
  {
  }

  /** Both buttons walk a cycle of length three. */
  lemma CycleOfThree(s: SliderIndex)
    ensures Next(Next(Next(s))) == s
    ensures Pre(Pre(Pre(s))) == s
    ensures Next(s) != Next(Next(s))
  {
  }
}
