/**
 * The fuzz-and-defend round: a random candidate string is drawn from a fixed
 * alphabet, scored by a password-strength style `defend` rule, and the score
 * decides the seed of the next round.
 */
module Cyber {

  /** The characters that earn the "special character" point. */
  const Specials: string := "!@#$%^&*()"
  const Letters: string := "abcdefghijklmnopqrstuvwxyzABCDEFGHIJKLMNOPQRSTUVWXYZ"
  const Digits: string := "0123456789"
  /** The fuzzing alphabet: letters, then digits, then the special characters. */
  const FuzzAlphabet: string := Letters + Digits + Specials
  const DefaultFuzzLength: nat := 8
  /** Strings longer than this earn the length point. */
  const LongLength: nat := 10
  const SeedFactor: nat := 17

  predicate IsDigit(c: char) {
    '0' <= c <= '9'
  }

  predicate IsUpper(c: char) {
    'A' <= c <= 'Z'
  }

  predicate HasSpecial(s: string) {
    exists i :: 0 <= i < |s| && s[i] in Specials
  }

  predicate HasDigit(s: string) {
    exists i :: 0 <= i < |s| && IsDigit(s[i])
  }

  predicate HasUpper(s: string) {
    exists i :: 0 <= i < |s| && IsUpper(s[i])
  }

  function Point(b: bool): nat {
    if b then 1 else 0
  }

  /** One point per criterion met: a special character, a digit, an upper-case letter, a length over ten. */
  function Defend(s: string): (score: nat)
    ensures score <= 4
    ensures score == 4 <==> HasSpecial(s) && HasDigit(s) && HasUpper(s) && |s| > LongLength
    ensures score == 0 <==> !HasSpecial(s) && !HasDigit(s) && !HasUpper(s) && |s| <= LongLength
  {
    Point(HasSpecial(s)) + Point(HasDigit(s)) + Point(HasUpper(s)) + Point(|s| > LongLength)
  }

  lemma DefendEmpty()
    ensures Defend("") == 0
  {
  }

  /** A string of at most ten characters never earns the length point. */
  lemma DefendShort(s: string)
    requires |s| <= LongLength
    ensures Defend(s) <= 3
  {
  }

  /** Appending characters never loses a point: every criterion met by `s` is met by `s + t`. */
  lemma DefendMonotone(s: string, t: string)
    ensures Defend(s) <= Defend(s + t)
  {
    var u := s + t;
    if HasSpecial(s) {
      var i :| 0 <= i < |s| && s[i] in Specials;
      assert u[i] == s[i];
    }
    if HasDigit(s) {
      var i :| 0 <= i < |s| && IsDigit(s[i]);
      assert u[i] == s[i];
    }
    if HasUpper(s) {
      var i :| 0 <= i < |s| && IsUpper(s[i]);
      assert u[i] == s[i];
    }
  }

  /**
   * `length` characters of the fuzzing alphabet; `pick(i)` stands for the
   * `i`-th choice of the seeded random generator, reduced to an index of the
   * alphabet.
   */
  function GenerateFuzz(pick: nat -> nat, length: nat): (s: string)
    ensures |s| == length
    ensures forall i :: 0 <= i < |s| ==> s[i] in FuzzAlphabet
  {
    seq(length, i requires 0 <= i < length => FuzzAlphabet[pick(i) % |FuzzAlphabet|])
  }

  datatype Round = Round(fuzz: string, defenseScore: nat, nextSeed: nat)

  /**
   * One round with the default fuzz length: the score of the fuzz string,
   * and seventeen times that score as the next seed. Eight characters never
   * earn the length point, so the next seed is one of four values.
   */
  function CyberRound(pick: nat -> nat): (r: Round)
    ensures |r.fuzz| == DefaultFuzzLength
    ensures r.defenseScore == Defend(r.fuzz)
    ensures r.nextSeed == SeedFactor * r.defenseScore
    ensures r.nextSeed in {0, 17, 34, 51}
  {
    var fuzz := GenerateFuzz(pick, DefaultFuzzLength);
    var score := Defend(fuzz);
    DefendShort(fuzz);
    Round(fuzz, score, score * SeedFactor)
  }
}
