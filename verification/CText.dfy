/**
 Text as the C library sees it: a sequence of bytes that ends at its first NUL.
 A `char` stands for one byte.
 */
module CText {

  datatype Option<+T> = None | Some(value: T)

  const NUL: char := '\0'

  predicate NoDuplicates<T(==)>(s: seq<T>) {
    forall i, j | 0 <= i < j < |s| :: s[i] != s[j]
  }

  lemma Assoc<T>(a: seq<T>, b: seq<T>, c: seq<T>)
    ensures a + b + c == a + (b + c)
  {
  }

  /** The first position of `c` in `s` from `i` on, or `|s|` when there is none. */
  function IndexFrom(s: seq<char>, c: char, i: nat): (r: nat)
    requires i <= |s|
    ensures i <= r <= |s|
    ensures r < |s| ==> s[r] == c
    ensures forall j | i <= j < r :: s[j] != c
    decreases |s| - i
  {
    if i == |s| || s[i] == c then i else IndexFrom(s, c, i + 1)
  }

  function Index(s: seq<char>, c: char): (r: nat)
    ensures r <= |s|
    ensures r < |s| ==> s[r] == c
    ensures forall j | 0 <= j < r :: s[j] != c
  {
    IndexFrom(s, c, 0)
  }

  lemma IndexIs(s: seq<char>, c: char, i: nat)
    requires i <= |s|
    requires forall j | 0 <= j < i :: s[j] != c
    requires i < |s| ==> s[i] == c
    ensures Index(s, c) == i
  {
  }

  /** The C string that starts at the first byte of `s`. */
  function CStr(s: seq<char>): string {
    s[..Index(s, NUL)]
  }

  /** What is read of a text with a terminator and anything behind it. */
  lemma CStrOfText(text: string, b: seq<char>)
    requires NUL !in text && |text| < |b| && b[..|text|] == text && b[|text|] == NUL
    ensures CStr(b) == text
  {
    assert forall j | 0 <= j < |text| :: b[j] == text[j];
    IndexIs(b, NUL, |text|);
  }

  /** `strstr` with a one-character needle: the offset of the match, or None when there is none. */
  function StrChr(s: seq<char>, c: char): Option<nat> {
    var text := CStr(s);
    var i := Index(text, c);
    if i < |text| then Some(i) else None
  }

  function LowerChar(c: char): char {
    if 'A' <= c <= 'Z' then (c as int + 32) as char else c
  }

  function Lower(s: string): string {
    seq(|s|, i requires 0 <= i < |s| => LowerChar(s[i]))
  }

  /** `strcmp(a, b) == 0` when `caseSensitive`, `strcasecmp(a, b) == 0` otherwise. */
  predicate SameText(a: string, b: string, caseSensitive: bool) {
    if caseSensitive then a == b else Lower(a) == Lower(b)
  }

  /** The upper-case and the lower-case form of one letter. */
  predicate IsCasePair(upper: char, lower: char) {
    'A' <= upper <= 'Z' && lower as int - 'a' as int == upper as int - 'A' as int
  }

  /** Texts are the same but for case when each character is, letter by letter. */
  lemma SameTextMeans(a: string, b: string)
    ensures SameText(a, b, true) <==> a == b
    ensures SameText(a, b, false) <==>
            && |a| == |b|
            && forall i | 0 <= i < |a| :: a[i] == b[i] || IsCasePair(a[i], b[i]) || IsCasePair(b[i], a[i])
  {
    if |a| == |b| {
      forall i | 0 <= i < |a|
        ensures Lower(a)[i] == Lower(b)[i] <==> a[i] == b[i] || IsCasePair(a[i], b[i]) || IsCasePair(b[i], a[i])
      {
      }
    } else {
      assert |Lower(a)| != |Lower(b)|;
    }
  }
}
