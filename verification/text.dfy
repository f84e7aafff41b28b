/** The JavaScript string operations the task manager uses: `toLowerCase`/`toUpperCase`
    (restricted to ASCII letters), `includes`, and `trim`. */
module Text {

  predicate IsAsciiUpper(c: char) { 'A' <= c <= 'Z' }

  predicate IsAsciiLower(c: char) { 'a' <= c <= 'z' }

  /** ASCII lower-casing of one character; every other character is left alone. */
  function LowerChar(c: char): char {
    if IsAsciiUpper(c) then (c as int + 32) as char else c
  }

  /** ASCII upper-casing of one character; every other character is left alone. */
  function UpperChar(c: char): char {
    if IsAsciiLower(c) then (c as int - 32) as char else c
  }

  /** `s.toLowerCase()` on the ASCII letters. */
  function Lower(s: string): (r: string)
    ensures |r| == |s|
    ensures forall i :: 0 <= i < |s| ==> r[i] == LowerChar(s[i])
  {
    seq(|s|, i requires 0 <= i < |s| => LowerChar(s[i]))
  }

  /** Lower-casing a lower-cased string changes nothing. */
  lemma LowerIdempotent(s: string)
    ensures Lower(Lower(s)) == Lower(s)
  {
  }

  /** Upper-casing a character does not change its lower-case form. */
  lemma LowerOfUpper(c: char)
    ensures LowerChar(UpperChar(c)) == LowerChar(c)
  {
  }

  /** `q` occurs in `s` starting at position `i`. */
  ghost predicate OccursAt(s: string, q: string, i: nat) {
    i + |q| <= |s| && s[i..i + |q|] == q
  }

  /** `s.includes(q)`: some position of `s` starts an occurrence of `q` (the empty string occurs everywhere). */
  function Includes(s: string, q: string): (r: bool)
    decreases |s|
  {
    if |q| > |s| then false
    else if s[..|q|] == q then true
    else Includes(s[1..], q)
  }

  /** The scan in `Includes` finds an occurrence exactly when one exists. */
  lemma {:induction false} IncludesIff(s: string, q: string)
    ensures Includes(s, q) <==> exists i: nat :: OccursAt(s, q, i)
  {
    if |q| > |s| {
      forall i: nat ensures !OccursAt(s, q, i) { }
    } else if s[..|q|] == q {
      assert OccursAt(s, q, 0);
    } else {
      IncludesIff(s[1..], q);
      if Includes(s[1..], q) {
        var i: nat :| OccursAt(s[1..], q, i);
        assert s[1..][i..i + |q|] == s[i + 1..i + 1 + |q|];
        assert OccursAt(s, q, i + 1);
      } else {
        forall i: nat | OccursAt(s, q, i) ensures false {
          if i > 0 {
            assert s[1..][i - 1..i - 1 + |q|] == s[i..i + |q|];
            assert OccursAt(s[1..], q, i - 1);
          }
        }
      }
    }
  }

  /** A non-empty query whose first character does not occur in `s` is not included in it. */
  lemma {:induction false} IncludesNeedsFirstChar(s: string, q: string)
    requires |q| > 0 && q[0] !in s
    ensures !Includes(s, q)
    decreases |s|
  {
    if |q| <= |s| {
      assert s[..|q|][0] == s[0];
      assert forall c :: c in s[1..] ==> c in s;
      IncludesNeedsFirstChar(s[1..], q);
    }
  }

  /** The characters JavaScript's `String.prototype.trim` removes: the WhiteSpace and
      LineTerminator code points of ECMA-262 (section 12.2 and 12.3 of the 2023 edition). */
  predicate IsWhitespace(c: char) {
    var n := c as int;
    n == 0x09 || n == 0x0A || n == 0x0B || n == 0x0C || n == 0x0D || n == 0x20
    || n == 0xA0 || n == 0x1680 || (0x2000 <= n <= 0x200A)
    || n == 0x2028 || n == 0x2029 || n == 0x202F || n == 0x205F || n == 0x3000 || n == 0xFEFF
  }

  /** Every character of `s` is whitespace (true of the empty string). */
  ghost predicate IsBlank(s: string) {
    forall i :: 0 <= i < |s| ==> IsWhitespace(s[i])
  }

  /** `s` with its leading whitespace removed. */
  function TrimStart(s: string): (r: string)
    ensures |r| <= |s| && r == s[|s| - |r|..]
    ensures IsBlank(s[..|s| - |r|])
    ensures |r| > 0 ==> !IsWhitespace(r[0])
  {
    if |s| > 0 && IsWhitespace(s[0]) then TrimStart(s[1..]) else s
  }

  /** `s` with its trailing whitespace removed. */
  function TrimEnd(s: string): (r: string)
    ensures |r| <= |s| && r == s[..|r|]
    ensures IsBlank(s[|r|..])
    ensures |r| > 0 ==> !IsWhitespace(r[|r| - 1])
  {
    if |s| > 0 && IsWhitespace(s[|s| - 1]) then TrimEnd(s[..|s| - 1]) else s
  }

  /** `s.trim()`. */
  function Trim(s: string): (r: string)
    ensures r == "" <==> IsBlank(s)
    ensures |r| > 0 ==> !IsWhitespace(r[0]) && !IsWhitespace(r[|r| - 1])
  {
    TrimEnd(TrimStart(s))
  }
}
