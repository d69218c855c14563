/** The GetSubstitution operation of ECMA-262: how `String.prototype.replace`
    expands a replacement template for one match. Only the case the page
    meets is modelled: a regular expression without named groups, whose
    capture groups all took part in the match. */
module Substitution {

  predicate IsDigit(c: char) {
    '0' <= c <= '9'
  }

  function DigitValue(c: char): (d: nat)
    requires IsDigit(c)
    ensures d < 10
  {
    c as int - '0' as int
  }

  function Min(a: int, b: int): int {
    if a <= b then a else b
  }

  /** Expands `template` for a match of `matched` at `position` in `str`,
      where `captures` holds the text of each capture group in order.
      The template is read left to right:
        `$$`  a single `$`
        `$&`  the matched text
        `$\`` the text of `str` before the match
        `$'`  the text of `str` after the match
        `$n`, `$nn`  capture n (1-based); a two-digit index larger than the
                     number of captures is read as one digit followed by a
                     literal digit, and an index that names no capture is
                     kept literally
        `$<`  kept literally, since the pattern has no named groups
      and every other character, a lone `$` included, is copied. So a
      template without `$` is copied unchanged. */
  function Expand(template: string, str: string, position: nat, matched: string, captures: seq<string>): (r: string)
    requires position <= |str|
    ensures '$' !in template ==> r == template
    decreases |template|
  {
    if template == [] then []
    else if template[0] != '$' || |template| == 1 then
      [template[0]] + Expand(template[1..], str, position, matched, captures)
    else
      var c := template[1];
      if c == '$' then
        "$" + Expand(template[2..], str, position, matched, captures)
      else if c == '&' then
        matched + Expand(template[2..], str, position, matched, captures)
      else if c == '`' then
        str[..position] + Expand(template[2..], str, position, matched, captures)
      else if c == '\'' then
        str[Min(position + |matched|, |str|)..] + Expand(template[2..], str, position, matched, captures)
      else if IsDigit(c) then
        var two := |template| >= 3 && IsDigit(template[2])
                   && 10 * DigitValue(c) + DigitValue(template[2]) <= |captures|;
        var width := if two then 3 else 2;
        var index := if two then 10 * DigitValue(c) + DigitValue(template[2]) else DigitValue(c);
        (if 1 <= index <= |captures| then captures[index - 1] else template[..width])
          + Expand(template[width..], str, position, matched, captures)
      else if c == '<' then
        "$<" + Expand(template[2..], str, position, matched, captures)
      else
        "$" + Expand(template[1..], str, position, matched, captures)
  }

  /** With a single capture group, a template `$1` followed by any text
      starts with the capture: the character after `$1`, even a digit, is
      never read as part of the reference, because `$1d` would name a group
      numbered ten or more. */
  lemma ExpandFirstCapture(rest: string, str: string, position: nat, matched: string, capture: string)
    requires position <= |str|
    ensures Expand("$1" + rest, str, position, matched, [capture])
            == capture + Expand(rest, str, position, matched, [capture])
  {
    var t := "$1" + rest;
    assert t[0] == '$' && t[1] == '1' && |t| >= 2;
    if |t| >= 3 && IsDigit(t[2]) {
      assert 10 * DigitValue(t[1]) + DigitValue(t[2]) >= 10;
    }
    assert t[2..] == rest;
  }

  /** The template `$$` stands for one literal `$`, whatever the match. */
  lemma ExpandDoubleDollar(str: string, position: nat, matched: string, captures: seq<string>)
    requires position <= |str|
    ensures Expand("$$", str, position, matched, captures) == "$"
  {
    var t := "$$";
    assert t[0] == '$' && t[1] == '$' && t[2..] == [];
  }
}
