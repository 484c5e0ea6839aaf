/** Facts about sequences, and the white space of one-byte characters.

    The facts hold for sequences over any type. They are stated apart because equality of
    sequences is extensional: where the elements are sequences or records themselves, it is
    cheaper to name the law that is meant than to have it found again. White space is that
    of the C locale and of Go's unicode.IsSpace on one-byte characters below 128. */
module Sequences {
  lemma Associate<T>(a: seq<T>, b: seq<T>, c: seq<T>)
    ensures (a + b) + c == a + (b + c)
  {
  }

  lemma Parts<T>(a: seq<T>, b: seq<T>)
    ensures (a + b)[..|a|] == a && (a + b)[|a|..] == b
  {
  }

  /** Tab, newline, vertical tab, form feed, carriage return and blank. */
  predicate IsSpace(c: char) {
    c == ' ' || 9 <= c as int <= 13
  }
}
