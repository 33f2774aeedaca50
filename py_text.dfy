/** The Python string operations the backend's file-name check uses:
    `str.lower`, `s.rsplit('.', 1)[1]` and `str.join`. */
module PyText {

  /** `str.lower()` on one character, as far as matching a lower-case ASCII
      word is concerned: `A`-`Z` and KELVIN SIGN (U+212A, which Python
      lower-cases to `k`) map to ASCII letters; every other character is
      kept. Python maps every other character to itself or to text outside
      ASCII, so both agree on whether a lowered string equals an ASCII word. */
  function LowerChar(c: char): char {
    if 'A' <= c <= 'Z' then (c as int + 32) as char
    else if c == '\U{212A}' then 'k'
    else c
  }

  function Lower(s: string): (r: string)
    ensures |r| == |s| && forall i :: 0 <= i < |s| ==> r[i] == LowerChar(s[i])
  {
    seq(|s|, i requires 0 <= i < |s| => LowerChar(s[i]))
  }

  /** The position of the last `.` in a string that has one. */
  function LastDot(s: string): (k: nat)
    requires '.' in s
    ensures k < |s| && s[k] == '.'
    ensures forall j :: k < j < |s| ==> s[j] != '.'
  {
    if s[|s| - 1] == '.' then |s| - 1
    else
      assert '.' in s[..|s| - 1] by {
        var i :| 0 <= i < |s| && s[i] == '.';
        assert s[..|s| - 1][i] == '.';
      }
      LastDot(s[..|s| - 1])
  }

  /** `s.rsplit('.', 1)[1]`: what follows the last dot. */
  function AfterLastDot(s: string): (r: string)
    requires '.' in s
    ensures '.' !in r
    ensures |r| < |s| && s[|s| - |r| - 1] == '.' && s[|s| - |r|..] == r
  {
    var k := LastDot(s);
    s[k + 1..]
  }

  /** `sep.join(items)`. */
  function Join(items: seq<string>, sep: string): string {
    if items == [] then ""
    else if |items| == 1 then items[0]
    else items[0] + sep + Join(items[1..], sep)
  }
}
