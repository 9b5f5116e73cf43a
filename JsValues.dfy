/** JavaScript string values as the backend handles them: sequences of UTF-16
    code units, joined and compared unit by unit. */
module JsValues {

  /** One UTF-16 code unit. The backend's regular expression has no `u` flag,
      so it, like `String.prototype.length`, counts code units. */
  newtype CodeUnit = u: int | 0 <= u < 0x1_0000

  type Text = seq<CodeUnit>

  datatype Option<+T> = None | Some(value: T)

  const LF: CodeUnit := 0x0A    // "\n"
  const CR: CodeUnit := 0x0D    // "\r"
  const LS: CodeUnit := 0x2028  // LINE SEPARATOR
  const PS: CodeUnit := 0x2029  // PARAGRAPH SEPARATOR

  function Min(a: int, b: int): int
  {
    if a <= b then a else b
  }

  /** The code units of a string literal of the handler. Every such literal
      is ASCII, so each character is one code unit of the same value; a
      character outside the Basic Multilingual Plane, which UTF-16 would
      write as a surrogate pair, does not occur and becomes U+FFFD here. */
  function Units(s: string): (r: Text)
    ensures |r| == |s|
    ensures forall i :: 0 <= i < |s| && s[i] as int < 0x1_0000 ==> r[i] as int == s[i] as int
  {
    seq(|s|, i requires 0 <= i < |s| => if s[i] as int < 0x1_0000 then s[i] as int as CodeUnit else 0xFFFD)
  }

  /** `parts.join("\n")`: the parts in order, one newline between neighbours;
      no parts give the empty string and one part gives that part. */
  function JoinLines(parts: seq<Text>): Text
  {
    if |parts| == 0 then []
    else if |parts| == 1 then parts[0]
    else parts[0] + [LF] + JoinLines(parts[1..])
  }

  /** The summed length of the parts. */
  function TotalLength(parts: seq<Text>): nat
  {
    if parts == [] then 0 else |parts[0]| + TotalLength(parts[1..])
  }

  /** Where part k starts when the parts are laid out with one unit between
      neighbours. */
  function Offset(parts: seq<Text>, k: nat): nat
    requires k <= |parts|
  {
    if k == 0 then 0 else |parts[0]| + 1 + Offset(parts[1..], k - 1)
  }

  /** The layout of a joined string: its length, part k at Offset(parts, k),
      and a newline right after every part but the last. */
  lemma {:induction false} JoinLinesLayout(parts: seq<Text>, k: nat)
    requires k < |parts|
    ensures |JoinLines(parts)| == TotalLength(parts) + |parts| - 1
    ensures Offset(parts, k) + |parts[k]| + (|parts| - 1 - k) <= |JoinLines(parts)|
    ensures JoinLines(parts)[Offset(parts, k) .. Offset(parts, k) + |parts[k]|] == parts[k]
    ensures k + 1 < |parts| ==> JoinLines(parts)[Offset(parts, k) + |parts[k]|] == LF
  {
    if |parts| == 1 {
      assert parts[1..] == [];
    } else {
      var head := parts[0] + [LF];
      var rest := parts[1..];
      assert JoinLines(parts) == head + JoinLines(rest);
      if k == 0 {
        JoinLinesLayout(rest, 0);
      } else {
        JoinLinesLayout(rest, k - 1);
        var o := Offset(rest, k - 1);
        assert rest[k - 1] == parts[k];
        assert JoinLines(parts)[|head| + o .. |head| + o + |parts[k]|]
            == JoinLines(rest)[o .. o + |parts[k]|];
        if k + 1 < |parts| {
          assert JoinLines(parts)[|head| + o + |parts[k]|] == JoinLines(rest)[o + |parts[k]|];
        }
      }
    }
  }
}
