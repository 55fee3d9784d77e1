/** Well-formed UTF-8 (section 4 of RFC 3629), the check behind `std::str::from_utf8` and `Utf8Proc::IsValid`. */
module Utf8 {
  import opened Bytes

  predicate Continuation(s: seq<byte>, i: nat) {
    i < |s| && 0x80 <= s[i] < 0xC0
  }

  /** Length of the well-formed sequence at the head of `s`, or 0. */
  function HeadLength(s: seq<byte>): (n: nat)
    ensures n <= 4 && n <= |s|
  {
    if s == [] then 0
    else if s[0] < 0x80 then 1
    else if 0xC2 <= s[0] < 0xE0 && Continuation(s, 1) then 2
    else if 0xE0 <= s[0] < 0xF0 && Continuation(s, 1) && Continuation(s, 2)
            && (s[0] == 0xE0 ==> s[1] >= 0xA0) && (s[0] == 0xED ==> s[1] < 0xA0) then 3
    else if 0xF0 <= s[0] < 0xF5 && Continuation(s, 1) && Continuation(s, 2) && Continuation(s, 3)
            && (s[0] == 0xF0 ==> s[1] >= 0x90) && (s[0] == 0xF4 ==> s[1] < 0x90) then 4
    else 0
  }

  predicate Valid(s: seq<byte>)
    decreases |s|
  {
    s == [] || (HeadLength(s) > 0 && Valid(s[HeadLength(s)..]))
  }
}
