/** Colours as the game draws, shows and compares them: a '#' followed by
    six upper-case hexadecimal digits. Two colours are equal exactly when
    their strings are. */
module Colors {

  /** A swatch value. Colours and the "none" marker of a wrongly guessed
      swatch are both kept as plain strings, as the component keeps them. */
  type Color = string

  /** The letters a colour digit is drawn from, indexed by their value. */
  const Letters: string := "0123456789ABCDEF"

  /** One draw of the random source for a digit: floor(random() * 16). */
  type HexDraw = d: int | 0 <= d < 16

  /** A letter of `Letters`. */
  predicate IsHexLetter(ch: char) {
    '0' <= ch <= '9' || 'A' <= ch <= 'F'
  }

  /** The canonical colour format: '#' and six hexadecimal letters. */
  predicate IsColor(c: string) {
    |c| == 7 && c[0] == '#' && forall k :: 1 <= k < 7 ==> IsHexLetter(c[k])
  }

  /** The letter a digit draw selects from `Letters`. */
  function Letter(d: HexDraw): (ch: char)
    ensures IsHexLetter(ch)
    ensures HexValue(ch) == d
  {
    Letters[d]
  }

  /** The value of a hexadecimal letter: its index in `Letters`. */
  function HexValue(ch: char): (d: HexDraw)
    requires IsHexLetter(ch)
    ensures Letters[d] == ch
  {
    if ch <= '9' then ch as int - '0' as int else ch as int - 'A' as int + 10
  }

  /** randomColor: '#' followed by the letters selected by six digit draws. */
  function RandomColor(draws: seq<HexDraw>): (c: Color)
    requires |draws| == 6
    ensures IsColor(c)
    ensures forall k :: 0 <= k < 6 ==> HexValue(c[k + 1]) == draws[k]
  {
    "#" + seq(6, k requires 0 <= k < 6 => Letter(draws[k]))
  }

  /** The six digit draws a colour string spells. */
  function ParseColor(c: Color): (draws: seq<HexDraw>)
    requires IsColor(c)
    ensures |draws| == 6
    ensures forall k :: 0 <= k < 6 ==> Letters[draws[k]] == c[k + 1]
  {
    seq(6, k requires 0 <= k < 6 => HexValue(c[k + 1]))
  }

  /** Reading back a drawn colour gives the draws that made it. */
  lemma ParseRandomColor(draws: seq<HexDraw>)
    requires |draws| == 6
    ensures ParseColor(RandomColor(draws)) == draws
  {
  }

  /** Every colour in the canonical format can be drawn: 16^6 colours in all. */
  lemma RandomColorParse(c: Color)
    requires IsColor(c)
    ensures RandomColor(ParseColor(c)) == c
  {
  }

  /** Different draws give different colours, so a duplicate colour means
      the same six digits were drawn twice. */
  lemma RandomColorInjective(a: seq<HexDraw>, b: seq<HexDraw>)
    requires |a| == 6 && |b| == 6
    ensures RandomColor(a) == RandomColor(b) <==> a == b
  {
  }
}
