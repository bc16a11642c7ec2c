/** A reader of English number words, written from the language alone: it says which number a text
    such as "Two Million Five Hundred Thousand" denotes, and rejects text that is not a number. */
module EnglishNumbers {
  import opened Collections

  type UnitNumber = n: nat | 1 <= n <= 19 witness 1

  type TensNumber = n: nat | 2 <= n <= 9 witness 2

  datatype Word = Unit(n: UnitNumber) | Tens(t: TensNumber) | Hundred | Thousand | Million | Billion | Zero

  const LEXICON: seq<(string, Word)> := [
    ("One", Unit(1)), ("Two", Unit(2)), ("Three", Unit(3)), ("Four", Unit(4)), ("Five", Unit(5)),
    ("Six", Unit(6)), ("Seven", Unit(7)), ("Eight", Unit(8)), ("Nine", Unit(9)), ("Ten", Unit(10)),
    ("Eleven", Unit(11)), ("Twelve", Unit(12)), ("Thirteen", Unit(13)), ("Fourteen", Unit(14)),
    ("Fifteen", Unit(15)), ("Sixteen", Unit(16)), ("Seventeen", Unit(17)), ("Eighteen", Unit(18)),
    ("Nineteen", Unit(19)), ("Twenty", Tens(2)), ("Thirty", Tens(3)), ("Forty", Tens(4)),
    ("Fifty", Tens(5)), ("Sixty", Tens(6)), ("Seventy", Tens(7)), ("Eighty", Tens(8)), ("Ninety", Tens(9)),
    ("Hundred", Hundred), ("Thousand", Thousand), ("Million", Million), ("Billion", Billion), ("Zero", Zero)]

  function Find(s: string, lexicon: seq<(string, Word)>): Option<Word>
  {
    if lexicon == [] then None
    else if lexicon[0].0 == s then Some(lexicon[0].1)
    else Find(s, lexicon[1..])
  }

  function Recognise(ss: seq<string>): Option<seq<Word>>
  {
    if ss == [] then Some([])
    else
      var first := Find(ss[0], LEXICON);
      var rest := Recognise(ss[1..]);
      if first.Some? && rest.Some? then Some([first.value] + rest.value) else None
  }

  /** What the group being read may go on with: nothing read yet, one digit (which may be hundreds), the
      hundreds, the tens, or no more than a scale word. */
  datatype Place = Fresh | Digit | Hundreds | Decade | Full

  /** The groups closed so far, the group being read, and the scale that the next group has to stay below
      (1 for thousands, 2 for millions, 3 for billions). */
  datatype Reading = Reading(total: nat, group: nat, place: Place, limit: nat)

  const START := Reading(0, 0, Fresh, 4)

  function Close(r: Reading, value: nat, scale: nat): Option<Reading>
  {
    if r.place != Fresh && scale < r.limit then Some(Reading(r.total + r.group * value, 0, Fresh, scale)) else None
  }

  function Next(r: Reading, w: Word): Option<Reading>
  {
    match w
    case Unit(n) =>
      if r.place == Fresh then Some(r.(group := r.group + n, place := if n <= 9 then Digit else Full))
      else if r.place == Hundreds || (r.place == Decade && n <= 9) then Some(r.(group := r.group + n, place := Full))
      else None
    case Tens(t) =>
      if r.place == Fresh || r.place == Hundreds then Some(r.(group := r.group + 10 * t, place := Decade)) else None
    case Hundred => if r.place == Digit then Some(r.(group := r.group * 100, place := Hundreds)) else None
    case Thousand => Close(r, 1_000, 1)
    case Million => Close(r, 1_000_000, 2)
    case Billion => Close(r, 1_000_000_000, 3)
    case Zero => None
  }

  function Read(r: Reading, ws: seq<Word>): Option<nat>
    decreases |ws|
  {
    if ws == [] then Some(r.total + r.group)
    else
      var next := Next(r, ws[0]);
      if next.None? then None else Read(next.value, ws[1..])
  }

  /** The number a text denotes: "Zero" stands alone, and the empty text counts as 0. */
  function Parse(s: string): Option<nat>
  {
    if s == "" then Some(0)
    else
      var words := Recognise(Split(s, ' '));
      if words.None? then None
      else if words.value == [Zero] then Some(0)
      else Read(START, words.value)
  }
}
