/**
 * The address syntax that every schema's `z.string().email()` checks. The library's version is
 * not pinned by the code modelled, and its pattern changed between releases; this is an assumed
 * pattern, the one of zod 3.23 and later 3.x releases, which reads: a local part of letters, digits and "_'+-.", not starting with '.', without
 * "..", and ending in a letter, digit or one of "_+-"; then '@'; then one or more domain labels,
 * each a letter or digit followed by letters, digits and '-', each followed by '.'; then a
 * top-level label of at least two letters. Letters are ASCII letters of either case. The
 * predicates below read an address once from left to right, as a matcher for that pattern does.
 */
module EmailSyntax {

  predicate IsLetter(c: char) {
    ('A' <= c <= 'Z') || ('a' <= c <= 'z')
  }

  predicate IsAlnum(c: char) {
    IsLetter(c) || ('0' <= c <= '9')
  }

  /** The characters of a local part. */
  predicate LocalChar(c: char) {
    IsAlnum(c) || c == '_' || c == '\'' || c == '+' || c == '-' || c == '.'
  }

  /** The characters a local part may end with. */
  predicate LocalEnd(c: char) {
    IsAlnum(c) || c == '_' || c == '+' || c == '-'
  }

  /**
   * The domain `s[i..]`: `segment` characters of the current label are read, all of them
   * letters when `letters`, and `closed` says whether a label ended in '.' already. A label
   * starts with a letter or digit and goes on with letters, digits and '-'; the last one, the
   * top-level label, needs two letters or more and nothing else.
   */
  predicate DomainFrom(s: string, i: nat, segment: nat, letters: bool, closed: bool)
    requires i <= |s|
    decreases |s| - i
  {
    if i == |s| then closed && segment >= 2 && letters
    else
      var c := s[i];
      if c == '.' then segment >= 1 && DomainFrom(s, i + 1, 0, true, true)
      else if segment == 0 then IsAlnum(c) && DomainFrom(s, i + 1, 1, IsLetter(c), closed)
      else (IsAlnum(c) || c == '-') && DomainFrom(s, i + 1, segment + 1, letters && IsLetter(c), closed)
  }

  /**
   * The local part `s[i..]` up to its '@', then the domain; `afterDot` says whether `s[i - 1]`
   * is '.'. No '.' may come first or right after another '.', and '@' is no local-part character,
   * so the first '@' ends the local part.
   */
  predicate LocalFrom(s: string, i: nat, afterDot: bool)
    requires i <= |s|
    decreases |s| - i
  {
    if i == |s| then false
    else
      var c := s[i];
      if c == '@' then i >= 1 && LocalEnd(s[i - 1]) && DomainFrom(s, i + 1, 0, true, false)
      else LocalChar(c) && !(c == '.' && (i == 0 || afterDot)) && LocalFrom(s, i + 1, c == '.')
  }

  lemma {:induction false} LocalFromHasAt(s: string, i: nat, afterDot: bool)
    requires i <= |s| && LocalFrom(s, i, afterDot)
    ensures '@' in s[i..] && |s| >= 1
    decreases |s| - i
  {
    if s[i] != '@' {
      LocalFromHasAt(s, i + 1, s[i] == '.');
      assert s[i + 1..] == s[i..][1..];
    }
  }

  /** `s` passes `z.string().email()`. An accepted address holds an '@', so it is never
      empty. */
  predicate IsEmail(s: string)
    ensures IsEmail(s) ==> '@' in s && |s| >= 1
  {
    if LocalFrom(s, 0, false) then
      LocalFromHasAt(s, 0, false);
      assert s[0..] == s;
      true
    else false
  }
}
