/** The JavaScript string semantics the chat widget relies on: `trim`,
    `startsWith`, truthiness of optional strings, template interpolation of
    `undefined`, the newline rewrite of `addMessage`, and `toString`/`padStart`
    on small non-negative integers. */
module JsText {
  import opened Wrappers

  /** The code points ECMAScript's `String.prototype.trim` strips: the
      WhiteSpace set (tab, vertical tab, form feed, space, no-break space,
      byte order mark and every "space separator") and the LineTerminator
      set (line feed, carriage return, line and paragraph separator). */
  predicate IsTrimmable(c: char) {
    || c == '\t' || c == '\n' || c == '\U{000B}' || c == '\U{000C}' || c == '\r'
    || c == ' ' || c == '\U{00A0}' || c == '\U{1680}'
    || ('\U{2000}' <= c <= '\U{200A}')
    || c == '\U{2028}' || c == '\U{2029}' || c == '\U{202F}' || c == '\U{205F}'
    || c == '\U{3000}' || c == '\U{FEFF}'
  }

  /** Drops the leading trimmable characters. */
  function TrimStart(s: string): string {
    if s != [] && IsTrimmable(s[0]) then TrimStart(s[1..]) else s
  }

  /** Drops the trailing trimmable characters. */
  function TrimEnd(s: string): string {
    if s != [] && IsTrimmable(s[|s| - 1]) then TrimEnd(s[..|s| - 1]) else s
  }

  /** `s.trim()`. */
  function Trim(s: string): string {
    TrimEnd(TrimStart(s))
  }

  /** What `TrimStart` leaves is a suffix, everything it dropped is
      trimmable, and what it leaves does not start with a trimmable
      character. */
  lemma {:induction false} TrimStartSpec(s: string)
    ensures var r := TrimStart(s);
      && |r| <= |s| && r == s[|s| - |r|..]
      && (forall i :: 0 <= i < |s| - |r| ==> IsTrimmable(s[i]))
      && (r != [] ==> !IsTrimmable(r[0]))
  {
    if s != [] && IsTrimmable(s[0]) {
      TrimStartSpec(s[1..]);
      var r := TrimStart(s);
      forall i | 0 <= i < |s| - |r| ensures IsTrimmable(s[i]) {
        if i > 0 { assert s[i] == s[1..][i - 1]; }
      }
    }
  }

  /** What `TrimEnd` leaves is a prefix, everything it dropped is
      trimmable, and what it leaves does not end with a trimmable
      character. */
  lemma {:induction false} TrimEndSpec(s: string)
    ensures var r := TrimEnd(s);
      && |r| <= |s| && r == s[..|r|]
      && (forall i :: |r| <= i < |s| ==> IsTrimmable(s[i]))
      && (r != [] ==> !IsTrimmable(r[|r| - 1]))
  {
    if s != [] && IsTrimmable(s[|s| - 1]) {
      TrimEndSpec(s[..|s| - 1]);
      var r := TrimEnd(s);
      forall i | |r| <= i < |s| ensures IsTrimmable(s[i]) {
        if i < |s| - 1 { assert s[i] == s[..|s| - 1][i]; }
      }
    }
  }

  /** `s[lo..hi]` is what is left of `s` once only trimmable characters
      are cut on either side. */
  predicate CutsOnlyTrimmable(s: string, lo: nat, hi: nat)
    requires lo <= hi <= |s|
  {
    (forall i :: 0 <= i < lo ==> IsTrimmable(s[i])) && (forall i :: hi <= i < |s| ==> IsTrimmable(s[i]))
  }

  /** A trimmed string is a contiguous piece of the original, with only
      trimmable characters cut on either side, and it neither starts nor
      ends with one. */
  lemma TrimIsSlice(s: string)
    ensures exists lo: nat, hi: nat :: lo <= hi <= |s| && Trim(s) == s[lo..hi] && CutsOnlyTrimmable(s, lo, hi)
    ensures Trim(s) != [] ==> !IsTrimmable(Trim(s)[0]) && !IsTrimmable(Trim(s)[|Trim(s)| - 1])
  {
    var t := TrimStart(s);
    TrimStartSpec(s);
    TrimEndSpec(t);
    var lo := |s| - |t|;
    var hi := lo + |TrimEnd(t)|;
    assert Trim(s) == s[lo..hi];
    forall i | hi <= i < |s| ensures IsTrimmable(s[i]) {
      assert s[i] == t[i - lo];
    }
    assert CutsOnlyTrimmable(s, lo, hi);
  }

  /** The trimmed text is empty exactly when every character is trimmable:
      this is what "the input holds only whitespace" means to the widget. */
  lemma TrimEmptyIff(s: string)
    ensures Trim(s) == "" <==> forall i :: 0 <= i < |s| ==> IsTrimmable(s[i])
  {
    var t := TrimStart(s);
    TrimStartSpec(s);
    TrimEndSpec(t);
    if Trim(s) == "" {
      assert t == [];
    } else {
      var j := |s| - |t|;
      assert t != [] && s[j] == t[0] && !IsTrimmable(s[j]);
    }
  }

  /** Text that neither starts nor ends with a trimmable character is its
      own trim. */
  lemma TrimKeeps(s: string)
    requires s != [] && !IsTrimmable(s[0]) && !IsTrimmable(s[|s| - 1])
    ensures Trim(s) == s
  {
  }

  /** `s.startsWith(p)`. */
  predicate StartsWith(s: string, p: string) {
    |p| <= |s| && s[..|p|] == p
  }

  /** JavaScript truthiness of a value that is either a string or `undefined`:
      `undefined` and `''` are falsy, every other string is truthy. */
  predicate Truthy(o: Option<string>) {
    o.Some? && o.value != ""
  }

  /** `a || b` on two such values. */
  function Or(a: Option<string>, b: Option<string>): (r: Option<string>)
    ensures Truthy(a) ==> r == a
    ensures !Truthy(a) ==> r == b
  {
    if Truthy(a) then a else b
  }

  /** What a template literal `${x}` produces for such a value. */
  function Interp(o: Option<string>): string {
    match o
    case None => "undefined"
    case Some(s) => s
  }

  /** `s.replace(/\n/g, '<br>')`. */
  function ReplaceNewlines(s: string): string {
    if s == [] then []
    else (if s[0] == '\n' then "<br>" else [s[0]]) + ReplaceNewlines(s[1..])
  }

  /** Every line feed is gone after the rewrite. */
  lemma {:induction false} ReplaceNewlinesRemovesAll(s: string)
    ensures '\n' !in ReplaceNewlines(s)
  {
    if s != [] {
      ReplaceNewlinesRemovesAll(s[1..]);
      var head: string := if s[0] == '\n' then "<br>" else [s[0]];
      assert ReplaceNewlines(s) == head + ReplaceNewlines(s[1..]);
      assert '\n' !in head;
    }
  }

  /** Text without a line feed is left exactly as it is. */
  lemma {:induction false} ReplaceNewlinesIdentity(s: string)
    requires '\n' !in s
    ensures ReplaceNewlines(s) == s
  {
    if s != [] {
      assert '\n' !in s[1..] by {
        forall i | 0 <= i < |s[1..]| ensures s[1..][i] != '\n' { assert s[1..][i] == s[i + 1]; }
      }
      ReplaceNewlinesIdentity(s[1..]);
    }
  }

  /** The rewrite works piecewise, so it commutes with concatenation. */
  lemma {:induction false} ReplaceNewlinesAppend(a: string, b: string)
    ensures ReplaceNewlines(a + b) == ReplaceNewlines(a) + ReplaceNewlines(b)
  {
    if a != [] {
      assert (a + b)[0] == a[0] && (a + b)[1..] == a[1..] + b;
      ReplaceNewlinesAppend(a[1..], b);
    } else {
      assert a + b == b;
    }
  }

  function DigitChar(d: nat): char
    requires d < 10
  {
    "0123456789"[d]
  }

  function DigitValue(c: char): nat {
    if '0' <= c <= '9' then (c as int - '0' as int) as nat else 0
  }

  lemma DigitRoundTrip(d: nat)
    requires d < 10
    ensures DigitValue(DigitChar(d)) == d
  {
  }

  predicate IsDigits(s: string) {
    forall i :: 0 <= i < |s| ==> '0' <= s[i] <= '9'
  }

  /** The number a string of decimal digits denotes (leading zeros allowed). */
  function DecimalValue(s: string): nat {
    if s == [] then 0 else 10 * DecimalValue(s[..|s| - 1]) + DigitValue(s[|s| - 1])
  }

  /** `n.toString()` for a non-negative integer. */
  function ToDecimal(n: nat): (r: string)
    ensures r != [] && IsDigits(r)
    ensures |r| == 1 <==> n < 10
    ensures n >= 10 ==> r[0] != '0'
  {
    if n < 10 then [DigitChar(n)] else ToDecimal(n / 10) + [DigitChar(n % 10)]
  }

  /** Printing and reading back a number gives the number. */
  lemma {:induction false} ToDecimalRoundTrip(n: nat)
    ensures DecimalValue(ToDecimal(n)) == n
  {
    if n >= 10 {
      ToDecimalRoundTrip(n / 10);
      var r := ToDecimal(n);
      assert r[..|r| - 1] == ToDecimal(n / 10);
    } else {
      var r := ToDecimal(n);
      assert r[..0] == [];
    }
  }

  /** `s.padStart(width, pad)` with a one-character pad. */
  function PadStart(s: string, width: nat, pad: char): (r: string)
    ensures |r| == if |s| >= width then |s| else width
    ensures r[|r| - |s|..] == s
    ensures forall i :: 0 <= i < |r| - |s| ==> r[i] == pad
  {
    if |s| >= width then s else seq(width - |s|, _ => pad) + s
  }

  /** Left-padding with zeros does not change the number a digit string denotes. */
  lemma {:induction false} ZeroPadValue(s: string)
    requires IsDigits(s) && |s| == 1
    ensures DecimalValue(PadStart(s, 2, '0')) == DecimalValue(s)
  {
    var r := PadStart(s, 2, '0');
    assert r == ['0', s[0]];
    assert r[..1] == ['0'] && ['0'][..0] == [];
    assert s[..0] == [];
  }
}
