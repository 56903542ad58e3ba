/** capitalizeFirstLetter and the character mapping it relies on. */
module Text {

  predicate IsLower(c: char)
  {
    'a' <= c <= 'z'
  }

  /** String.prototype.toUpperCase on one character, for ASCII letters. */
  function ToUpper(c: char): (u: char)
    ensures !IsLower(u)
    ensures IsLower(c) ==> 'A' <= u <= 'Z' && u as int + 32 == c as int
    ensures !IsLower(c) ==> u == c
  {
    if IsLower(c) then (c as int - 32) as char else c
  }

  /** charAt(0).toUpperCase() + slice(1): only the first character may
      change, and the empty string stays empty. */
  function Capitalize(s: string): (r: string)
    ensures |r| == |s|
    ensures s == "" ==> r == ""
    ensures s != "" ==> r[0] == ToUpper(s[0]) && !IsLower(r[0])
    ensures forall i :: 1 <= i < |s| ==> r[i] == s[i]
    ensures r == s <==> (s == "" || !IsLower(s[0]))
  {
    if s == "" then "" else [ToUpper(s[0])] + s[1..]
  }

  /** Capitalizing twice is capitalizing once. */
  lemma CapitalizeIdempotent(s: string)
    ensures Capitalize(Capitalize(s)) == Capitalize(s)
  {
  }
}
