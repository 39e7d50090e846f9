/** The pure part of the plans page: a plan's comma-separated features text rendered as
    one trimmed item per comma-separated piece. */
module PlansPage {
  import opened Store

  /** The number of occurrences of `c` in `s`. */
  function Occurrences(s: string, c: char): nat {
    if s == [] then 0 else (if s[0] == c then 1 else 0) + Occurrences(s[1..], c)
  }

  /** `s.split(sep)` for a one-character separator: the pieces between separators, in order;
      the empty string gives one empty piece. */
  function Split(s: string, sep: char): (r: seq<string>)
    ensures |r| == Occurrences(s, sep) + 1
    ensures forall i | 0 <= i < |r| :: sep !in r[i]
  {
    if s == [] then [""]
    else
      var rest := Split(s[1..], sep);
      if s[0] == sep then [""] + rest
      else [[s[0]] + rest[0]] + rest[1..]
  }

  /** `parts.join(sep)`. */
  function Join(parts: seq<string>, sep: char): string
    requires |parts| >= 1
  {
    if |parts| == 1 then parts[0] else parts[0] + [sep] + Join(parts[1..], sep)
  }

  /** Extending the first piece by one character extends the joined text by it. */
  lemma JoinExtendFirst(c: char, parts: seq<string>, sep: char)
    requires |parts| >= 1
    ensures Join([[c] + parts[0]] + parts[1..], sep) == [c] + Join(parts, sep)
  {
    var r := [[c] + parts[0]] + parts[1..];
    assert r[1..] == parts[1..];
  }

  /** An empty first piece contributes only its separator. */
  lemma JoinEmptyFirst(parts: seq<string>, sep: char)
    requires |parts| >= 1
    ensures Join([""] + parts, sep) == [sep] + Join(parts, sep)
  {
    assert ([""] + parts)[1..] == parts;
  }

  /** Joining the pieces back with the separator gives the original text. */
  lemma {:induction false} JoinSplit(s: string, sep: char)
    ensures Join(Split(s, sep), sep) == s
  {
    if s != [] {
      var rest := Split(s[1..], sep);
      JoinSplit(s[1..], sep);
      if s[0] == sep {
        JoinEmptyFirst(rest, sep);
      } else {
        JoinExtendFirst(s[0], rest, sep);
      }
      assert s == [s[0]] + s[1..];
    }
  }

  /** The characters `String.prototype.trim` removes: white space and line terminators. */
  predicate IsWhitespace(c: char) {
    || c == '\t' || c == '\n' || c == '\U{000B}' || c == '\U{000C}' || c == '\r' || c == ' '
    || c == '\U{00A0}' || c == '\U{1680}' || ('\U{2000}' <= c <= '\U{200A}')
    || c == '\U{2028}' || c == '\U{2029}' || c == '\U{202F}' || c == '\U{205F}'
    || c == '\U{3000}' || c == '\U{FEFF}'
  }

  /** Neither the first nor the last character is white space. */
  predicate Trimmed(s: string) {
    s == [] || (!IsWhitespace(s[0]) && !IsWhitespace(s[|s| - 1]))
  }

  /** The index of the first character at or after `i` that is not white space (`|s|` when
      there is none). */
  function SkipLeading(s: string, i: int): (k: int)
    requires 0 <= i <= |s|
    ensures i <= k <= |s|
    ensures forall m | i <= m < k :: IsWhitespace(s[m])
    ensures k == |s| || !IsWhitespace(s[k])
    decreases |s| - i
  {
    if i < |s| && IsWhitespace(s[i]) then SkipLeading(s, i + 1) else i
  }

  /** The index just after the last character before `j` and not before `lo` that is not
      white space (`lo` when there is none). */
  function SkipTrailing(s: string, lo: int, j: int): (k: int)
    requires 0 <= lo <= j <= |s|
    ensures lo <= k <= j
    ensures forall m | k <= m < j :: IsWhitespace(s[m])
    ensures k == lo || !IsWhitespace(s[k - 1])
    decreases j - lo
  {
    if lo < j && IsWhitespace(s[j - 1]) then SkipTrailing(s, lo, j - 1) else j
  }

  /** `r` is `s[i..j]`, and everything outside that slice is white space. */
  predicate StrippedAt(s: string, r: string, i: int, j: int) {
    && 0 <= i <= j <= |s| && r == s[i..j]
    && (forall m | 0 <= m < i :: IsWhitespace(s[m]))
    && (forall m | j <= m < |s| :: IsWhitespace(s[m]))
  }

  /** `s.trim()`: `s` without its leading and trailing white space. */
  function Trim(s: string): (r: string)
    ensures Trimmed(r)
    ensures exists i, j :: StrippedAt(s, r, i, j)
  {
    var i := SkipLeading(s, 0);
    var j := SkipTrailing(s, i, |s|);
    assert StrippedAt(s, s[i..j], i, j);
    s[i..j]
  }

  /** `plan.features?.split(",").map(f => f.trim())`: the rendered feature items. */
  function RenderedFeatures(features: Option<string>): (r: seq<string>)
    ensures features.None? ==> r == []
    ensures features.Some? ==> |r| == Occurrences(features.value, ',') + 1
    ensures features.Some? ==> forall i | 0 <= i < |r| :: r[i] == Trim(Split(features.value, ',')[i])
    ensures forall i | 0 <= i < |r| :: ',' !in r[i] && Trimmed(r[i])
  {
    match features
    case None => []
    case Some(text) =>
      var pieces := Split(text, ',');
      var r := seq(|pieces|, i requires 0 <= i < |pieces| => Trim(pieces[i]));
      assert forall i | 0 <= i < |r| :: ',' !in r[i] by {
        forall i | 0 <= i < |r| ensures ',' !in r[i] {
          var a, b :| StrippedAt(pieces[i], r[i], a, b);
          assert ',' !in pieces[i];
        }
      }
      r
  }
}
