/** JavaScript strings: sequences of UTF-16 code units, with the character
    classes that the tokenizers and the JSON printer rely on. */
module JsText {
  type Unit = u: int | 0 <= u < 0x1_0000
  type Text = seq<Unit>

  datatype Option<+T> = None | Some(value: T)

  /** The text of a literal of the Basic Multilingual Plane. */
  function Lit(s: string): (t: Text)
    ensures |t| == |s| && forall i :: 0 <= i < |s| ==> t[i] == s[i] as int % 0x1_0000
  {
    seq(|s|, i requires 0 <= i < |s| => s[i] as int % 0x1_0000)
  }

  /** Strict lexicographic order by code unit, the order of Array.prototype.sort. */
  predicate TextLess(a: Text, b: Text) {
    b != [] && (a == [] || a[0] < b[0] || (a[0] == b[0] && TextLess(a[1..], b[1..])))
  }

  lemma {:induction false} TextLessTotal(a: Text, b: Text)
    ensures a == b || TextLess(a, b) || TextLess(b, a)
    ensures !(TextLess(a, b) && TextLess(b, a))
    ensures !TextLess(a, a)
  {
    if a == [] {
    } else {
      TextLessTotal(a[1..], a[1..]);
      if b != [] && a[0] == b[0] {
        TextLessTotal(a[1..], b[1..]);
        if a[1..] == b[1..] {
          assert a == [a[0]] + a[1..] && b == [b[0]] + b[1..];
        }
      }
    }
  }

  lemma {:induction false} TextLessTransitive(a: Text, b: Text, c: Text)
    requires TextLess(a, b) && TextLess(b, c)
    ensures TextLess(a, c)
  {
    if a != [] && a[0] == b[0] == c[0] {
      TextLessTransitive(a[1..], b[1..], c[1..]);
    }
  }

  /** LineTerminator (section 12.3 of ECMA-262): what `.` refuses and `^`, `$` look for. */
  predicate IsLineTerminator(u: Unit) {
    u == 0x0A || u == 0x0D || u == 0x2028 || u == 0x2029
  }

  /** `\s` of a regular expression (section 22.2.2.9 of ECMA-262): line terminators included. */
  predicate IsSpace(u: Unit) {
    || IsLineTerminator(u)
    || u == 0x09 || u == 0x0B || u == 0x0C || u == 0x20 || u == 0xA0 || u == 0x1680
    || 0x2000 <= u <= 0x200A
    || u == 0x202F || u == 0x205F || u == 0x3000 || u == 0xFEFF
  }

  predicate IsDigit(u: Unit) { 0x30 <= u <= 0x39 }

  /** `[a-zA-Z0-9_.-]`, the class of usernames. */
  predicate IsUserUnit(u: Unit) {
    || IsDigit(u)
    || 0x41 <= u <= 0x5A || 0x61 <= u <= 0x7A
    || u == 0x5F || u == 0x2E || u == 0x2D
  }
}
