/** Character-level helpers: SQL LOWER and LIKE '%k%', Bean Validation's blank test. */
module Text {

  /** Lower-casing of one character (ASCII letters only). */
  function LowerChar(c: char): (r: char)
    ensures 'A' <= c <= 'Z' ==> 'a' <= r <= 'z' && r as int == c as int + 32
    ensures !('A' <= c <= 'Z') ==> r == c
  {
    if 'A' <= c <= 'Z' then (c as int + 32) as char else c
  }

  /** Upper-casing of one character (ASCII letters only). */
  function UpperChar(c: char): (r: char)
    ensures 'a' <= c <= 'z' ==> 'A' <= r <= 'Z' && r as int == c as int - 32
    ensures !('a' <= c <= 'z') ==> r == c
  {
    if 'a' <= c <= 'z' then (c as int - 32) as char else c
  }

  /** SQL LOWER(s): lower-cases every character, keeping the length. */
  function Lower(s: string): (r: string)
    ensures |r| == |s|
    ensures forall i :: 0 <= i < |s| ==> r[i] == LowerChar(s[i])
  {
    if s == [] then [] else [LowerChar(s[0])] + Lower(s[1..])
  }

  /** `p` is a prefix of `s`. */
  predicate IsPrefix(p: string, s: string) {
    |p| <= |s| && s[..|p|] == p
  }

  /** `k` occurs in `s` at position `i`. */
  predicate OccursAt(s: string, k: string, i: nat) {
    i + |k| <= |s| && s[i..i + |k|] == k
  }

  /** `s LIKE '%k%'` for a keyword without wildcards, as a left-to-right scan. */
  function Contains(s: string, k: string): bool
    decreases |s|
  {
    if IsPrefix(k, s) then true
    else if s == [] then false
    else Contains(s[1..], k)
  }

  /** The scan finds `k` exactly when `k` occurs somewhere in `s`. */
  lemma {:induction false} ContainsIff(s: string, k: string)
    ensures Contains(s, k) <==> exists i: nat :: OccursAt(s, k, i)
    decreases |s|
  {
    if IsPrefix(k, s) {
      assert OccursAt(s, k, 0);
    } else if s == [] {
    } else {
      ContainsIff(s[1..], k);
      if Contains(s[1..], k) {
        var j: nat :| OccursAt(s[1..], k, j);
        assert s[j + 1..j + 1 + |k|] == s[1..][j..j + |k|];
        assert OccursAt(s, k, j + 1);
      }
      if exists i: nat :: OccursAt(s, k, i) {
        var i: nat :| OccursAt(s, k, i);
        assert i != 0;
        assert s[1..][i - 1..i - 1 + |k|] == s[i..i + |k|];
        assert OccursAt(s[1..], k, i - 1);
      }
    }
  }

  /** The empty keyword occurs in every string. */
  lemma EmptyKeywordMatches(s: string)
    ensures Contains(s, "")
  {
  }

  /** LIKE treats '%' and '_' as wildcards; the model covers keywords without them. */
  predicate NoLikeWildcards(k: string) {
    forall i :: 0 <= i < |k| ==> k[i] != '%' && k[i] != '_'
  }

  /**
   * @NotBlank: Hibernate Validator trims the string (dropping every character up to
   * U+0020) and requires something to be left.
   */
  predicate IsBlank(s: string) {
    forall i :: 0 <= i < |s| ==> s[i] <= ' '
  }

  /**
   * Java's `String.length()`: the number of UTF-16 code units, so a character outside the
   * Basic Multilingual Plane counts twice.
   */
  function Utf16Length(s: string): (n: nat)
    ensures |s| <= n <= 2 * |s|
    ensures n == |s| <==> forall i :: 0 <= i < |s| ==> s[i] as int < 0x1_0000
  {
    if s == [] then 0
    else
      var rest := Utf16Length(s[1..]);
      assert forall i :: 1 <= i < |s| ==> s[i] == s[1..][i - 1];
      (if s[0] as int < 0x1_0000 then 1 else 2) + rest
  }

  /**
   * The display-name convention of the enums: each `_`-separated word of the constant's
   * name is capitalised and the words are joined by a space (IN_PROGRESS -> "In Progress").
   */
  function Humanize(name: string): (r: string)
    ensures |r| == |name|
  {
    seq(|name|, i requires 0 <= i < |name| => HumanizeChar(name, i))
  }

  /** The `i`-th character of `Humanize(name)`. */
  function HumanizeChar(name: string, i: nat): char
    requires i < |name|
  {
    if name[i] == '_' then ' '
    else if i == 0 || name[i - 1] == '_' then UpperChar(name[i])
    else LowerChar(name[i])
  }
}
