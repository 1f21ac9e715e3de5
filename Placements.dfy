/** The placement record shared by the desktop tool, the HTML editor and the
    server: `{x, y, s1_num, s2_num, s1_icon, s2_icon}`, where each assignment
    slot holds JSON null, a number or a string, plus the road mode and the
    picture catalogue entries `{id, path, name}`. */
module Placements {
  import opened Text

  /** The value of one assignment slot. A key that is absent reads as Null. */
  datatype Field = Null | Num(n: int) | Str(s: string)

  /** Truthiness of a slot value; Python and JavaScript agree on these values. */
  predicate Truthy(f: Field) {
    match f
    case Null => false
    case Num(n) => n != 0
    case Str(s) => s != ""
  }

  /** `a or b` in Python, `a || b` in JavaScript. */
  function Or(a: Field, b: Field): Field {
    if Truthy(a) then a else b
  }

  /** `str(v)` in Python and `String(v)` in JavaScript for a number or a string. */
  function FieldText(f: Field): string
    requires !f.Null?
  {
    match f
    case Num(n) => IntToDecimal(n)
    case Str(s) => s
  }

  /** The text drawn in one half of a marker: `String(num || icon || '')`. */
  function Label(num: Field, icon: Field): string {
    var v := Or(num, Or(icon, Str("")));
    FieldText(v)
  }

  /** The label shows the number when it is truthy, else the icon when that is
      truthy, else nothing. */
  lemma LabelChoice(num: Field, icon: Field)
    ensures Truthy(num) ==> Label(num, icon) == FieldText(num)
    ensures !Truthy(num) && Truthy(icon) ==> Label(num, icon) == FieldText(icon)
    ensures !Truthy(num) && !Truthy(icon) ==> Label(num, icon) == ""
  {
  }

  datatype PlacementRecord = PlacementRecord(
    x: int, y: int, s1Num: Field, s2Num: Field, s1Icon: Field, s2Icon: Field)

  /** A placement just created at (x, y): all four assignment slots null. */
  function Unassigned(x: int, y: int): PlacementRecord {
    PlacementRecord(x, y, Null, Null, Null, Null)
  }

  /** Label of side 1 (blue) or side 2 (red) of a placement. */
  function SideLabel(r: PlacementRecord, side: int): string {
    if side == 1 then Label(r.s1Num, r.s1Icon) else Label(r.s2Num, r.s2Icon)
  }

  /** The road type chosen at set-up: "single" or "two". */
  datatype Mode = Single | Two

  /** One entry of the picture catalogue. */
  datatype Choice = Choice(id: int, path: string, name: string)
}
