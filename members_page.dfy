/** The pure parts of the members page: the search filter and the status badge colour. */
module MembersPage {
  import opened Store

  /** ASCII lower-casing of one character. */
  function LowerChar(c: char): char {
    if 'A' <= c <= 'Z' then (c as int + 32) as char else c
  }

  /** `toLowerCase()`, restricted to ASCII letters. */
  function ToLower(s: string): (r: string)
    ensures |r| == |s|
    ensures forall i | 0 <= i < |s| :: r[i] == LowerChar(s[i])
  {
    if s == [] then [] else [LowerChar(s[0])] + ToLower(s[1..])
  }

  /** `t` occurs in `s` starting at index `i`. */
  predicate OccursAt(s: string, t: string, i: int) {
    0 <= i && i + |t| <= |s| && forall k | 0 <= k < |t| :: s[i + k] == t[k]
  }

  /** `s.includes(t)`. */
  function Includes(s: string, t: string): (r: bool)
    ensures r <==> exists i :: OccursAt(s, t, i)
    decreases |s|
  {
    if |t| > |s| then false
    else if s[..|t|] == t then
      assert OccursAt(s, t, 0);
      true
    else
      var r := Includes(s[1..], t);
      assert forall j | 1 <= j < |s| :: s[1..][j - 1] == s[j];
      assert forall i | 1 <= i :: OccursAt(s, t, i) <==> OccursAt(s[1..], t, i - 1);
      assert !OccursAt(s, t, 0);
      assert r ==> OccursAt(s, t, (var j :| OccursAt(s[1..], t, j); j) + 1);
      r
  }

  /** The search box keeps a member whose lower-cased name contains the lower-cased term,
      or whose phone contains the term as typed. */
  predicate MatchesSearch(m: Member, term: string) {
    Includes(ToLower(m.fullName), ToLower(term)) || Includes(m.phone, term)
  }

  /** `a` is `b` with some elements left out, the rest kept in order. */
  predicate SubsequenceOf<T(==)>(a: seq<T>, b: seq<T>)
    decreases |b|
  {
    if a == [] then true
    else if b == [] then false
    else (a[0] == b[0] && SubsequenceOf(a[1..], b[1..])) || SubsequenceOf(a, b[1..])
  }

  /** How often the filter should keep member `m`: as often as it occurs in the list when it
      matches the search, otherwise never. */
  function Kept(m: Member, members: seq<Member>, term: string): nat {
    if MatchesSearch(m, term) then multiset(members)[m] else 0
  }

  /** `members.filter(...)` with the search predicate. */
  function FilteredMembers(members: seq<Member>, term: string): (r: seq<Member>)
    ensures forall m :: m in r <==> m in members && MatchesSearch(m, term)
    ensures forall m :: multiset(r)[m] == Kept(m, members, term)
    ensures SubsequenceOf(r, members)
  {
    if members == [] then []
    else
      assert members == [members[0]] + members[1..];
      var rest := FilteredMembers(members[1..], term);
      if MatchesSearch(members[0], term) then
        assert ([members[0]] + rest)[1..] == rest;
        [members[0]] + rest
      else
        assert rest == [] || rest[0] != members[0] by {
          if rest != [] { assert rest[0] in rest; }
        }
        rest
  }

  lemma {:induction false} IncludesEmpty(s: string)
    ensures Includes(s, "")
  {
    assert OccursAt(s, "", 0);
  }

  /** An empty search box keeps every member, in order. */
  lemma {:induction false} EmptySearchKeepsAll(members: seq<Member>)
    ensures FilteredMembers(members, "") == members
  {
    if members != [] {
      IncludesEmpty(members[0].phone);
      EmptySearchKeepsAll(members[1..]);
      assert members == [members[0]] + members[1..];
    }
  }

  /** The name match ignores ASCII case: a member whose name contains the term, letter for
      letter up to case, is kept. */
  lemma NameMatchIgnoresCase(m: Member, term: string, i: int)
    requires 0 <= i && i + |term| <= |m.fullName|
    requires forall k | 0 <= k < |term| :: LowerChar(m.fullName[i + k]) == LowerChar(term[k])
    ensures MatchesSearch(m, term)
  {
    assert OccursAt(ToLower(m.fullName), ToLower(term), i);
  }

  /** The phone match is exact: a member whose phone contains the term as typed is kept. */
  lemma PhoneMatchAsTyped(m: Member, term: string, i: int)
    requires OccursAt(m.phone, term, i)
    ensures MatchesSearch(m, term)
  {
  }

  /** The phone match does not ignore case: a capital letter in the term misses a phone
      holding the lower-case letter. */
  lemma PhoneMatchIsCaseSensitive()
    ensures !MatchesSearch(Member(1, "ali", "a@b", "07x", None, None, "active", 0), "07X")
  {
  }

  const ActiveBadge := "bg-green-100 text-green-700"
  const ExpiredBadge := "bg-red-100 text-red-700"
  const OtherBadge := "bg-gray-100 text-gray-700"

  /** The badge classes of a status: green for active, red for expired, gray for any other. */
  function StatusColor(status: string): (r: string)
    ensures r == ActiveBadge <==> status == "active"
    ensures r == ExpiredBadge <==> status == "expired"
    ensures r == OtherBadge <==> status != "active" && status != "expired"
  {
    match status
    case "active" => ActiveBadge
    case "expired" => ExpiredBadge
    case _ => OtherBadge
  }
}
