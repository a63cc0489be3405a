/** Characters as the C locale classifies them, and text in upper case. */
module Characters {

  predicate Space(c: char) {
    c == ' ' || '\t' <= c <= '\r'
  }

  predicate Digit(c: char) {
    '0' <= c <= '9'
  }

  predicate Letter(c: char) {
    'a' <= c <= 'z' || 'A' <= c <= 'Z'
  }

  function UpperOf(c: char): char {
    if 'a' <= c <= 'z' then (c as int - 32) as char else c
  }

  function Upper(text: string): (r: string)
    ensures |r| == |text| && forall i :: 0 <= i < |text| ==> r[i] == UpperOf(text[i])
  {
    if text == "" then "" else [UpperOf(text[0])] + Upper(text[1..])
  }
}
