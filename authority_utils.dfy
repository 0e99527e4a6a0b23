/**
 * The authorities claim of a token is one string of role names separated by
 * commas. Spring turns it into a list of granted authorities; this module
 * models that conversion as a plain comma split that drops empty entries.
 */
module AuthorityUtils {

  /** A granted authority, as `SimpleGrantedAuthority` holds it: just its role name. */
  datatype GrantedAuthority = SimpleGrantedAuthority(role: string)

  const Comma: char := ','

  /** A role name as the split can produce it: non-empty and free of commas. */
  predicate IsRole(t: string) {
    t != [] && Comma !in t
  }

  /** The position of the first comma of `s`. */
  function FirstComma(s: string): (i: nat)
    requires Comma in s
    ensures i < |s| && s[i] == Comma && Comma !in s[..i]
  {
    if s[0] == Comma then 0
    else
      assert s == [s[0]] + s[1..];
      var j := FirstComma(s[1..]);
      assert s[..j + 1] == [s[0]] + s[1..][..j];
      j + 1
  }

  /**
   * The role names of a comma-separated string, in order, with the empty
   * entries (from leading, trailing or doubled commas) left out.
   */
  function Tokens(s: string): (r: seq<string>)
    ensures forall k :: 0 <= k < |r| ==> IsRole(r[k])
    ensures r == [] <==> forall k :: 0 <= k < |s| ==> s[k] == Comma
    decreases |s|
  {
    if Comma !in s then
      if s == [] then [] else assert s[0] in s; [s]
    else
      var i := FirstComma(s);
      var rest := Tokens(s[i + 1..]);
      assert forall k :: i + 1 <= k < |s| ==> s[k] == s[i + 1..][k - (i + 1)];
      (if i == 0 then [] else [s[..i]]) + rest
  }

  /** `AuthorityUtils.commaSeparatedStringToAuthorityList`: one authority per role name. */
  function CommaSeparatedStringToAuthorityList(s: string): (r: seq<GrantedAuthority>)
    ensures |r| == |Tokens(s)|
    ensures forall k :: 0 <= k < |r| ==> r[k].role == Tokens(s)[k] && IsRole(r[k].role)
  {
    AuthorityList(Tokens(s))
  }

  /** One `SimpleGrantedAuthority` per role name, in order. */
  function AuthorityList(roles: seq<string>): (r: seq<GrantedAuthority>)
    ensures |r| == |roles| && forall k :: 0 <= k < |r| ==> r[k].role == roles[k]
  {
    seq(|roles|, k requires 0 <= k < |roles| => SimpleGrantedAuthority(roles[k]))
  }

  /** The comma-separated form a token issuer writes for a list of role names. */
  function Join(roles: seq<string>): string {
    if |roles| == 0 then ""
    else if |roles| == 1 then roles[0]
    else roles[0] + [Comma] + Join(roles[1..])
  }

  /** The characters of `s` other than commas, in order. */
  function WithoutCommas(s: string): string {
    if s == [] then []
    else (if s[0] == Comma then [] else [s[0]]) + WithoutCommas(s[1..])
  }

  /** The role names written one after another. */
  function Concat(ts: seq<string>): string {
    if ts == [] then [] else ts[0] + Concat(ts[1..])
  }

  lemma {:induction false} FirstCommaAt(s: string, j: nat)
    requires j < |s| && s[j] == Comma && Comma !in s[..j]
    ensures FirstComma(s) == j
  {
    if j > 0 {
      assert s[0] == s[..j][0];
      assert s[1..][..j - 1] == s[..j][1..];
      FirstCommaAt(s[1..], j - 1);
    }
  }

  /** Splitting what `Join` wrote gives back the role names: issue, then split, is the identity. */
  lemma {:induction false} TokensOfJoin(roles: seq<string>)
    requires forall k :: 0 <= k < |roles| ==> IsRole(roles[k])
    ensures Tokens(Join(roles)) == roles
  {
    if |roles| == 1 {
      TokensWithoutComma(roles[0]);
    } else if |roles| > 1 {
      var t, tail := roles[0], roles[1..];
      assert IsRole(t);
      assert forall k :: 0 <= k < |tail| ==> IsRole(tail[k]) by {
        assert forall k :: 0 <= k < |tail| ==> tail[k] == roles[k + 1];
      }
      var joined := Join(tail);
      assert Join(roles) == t + [Comma] + joined;
      TokensWithoutComma(t);
      TokensAtComma(t, joined);
      TokensOfJoin(tail);
      assert roles == [t] + tail;
    }
  }

  lemma {:induction false} WithoutCommasAppend(a: string, b: string)
    ensures WithoutCommas(a + b) == WithoutCommas(a) + WithoutCommas(b)
  {
    if a == [] {
      assert a + b == b;
    } else {
      assert (a + b)[1..] == a[1..] + b;
      WithoutCommasAppend(a[1..], b);
    }
  }

  lemma {:induction false} WithoutCommasOfRole(t: string)
    requires Comma !in t
    ensures WithoutCommas(t) == t
  {
    if t != [] {
      assert Comma !in t[1..] by { assert forall k :: 0 <= k < |t[1..]| ==> t[1..][k] == t[k + 1]; }
      WithoutCommasOfRole(t[1..]);
    }
  }

  /** Removing the commas of a string around its first comma. */
  lemma {:induction false} WithoutCommasAtFirstComma(s: string, i: nat)
    requires i < |s| && s[i] == Comma && Comma !in s[..i]
    ensures WithoutCommas(s) == s[..i] + WithoutCommas(s[i + 1..])
  {
    var head, tail := s[..i], s[i + 1..];
    var rest := [Comma] + tail;
    assert s == head + rest;
    assert rest[0] == Comma && rest[1..] == tail;
    WithoutCommasAppend(head, rest);
    WithoutCommasOfRole(head);
  }

  /** The split loses nothing but commas: the role names, put together, are the input without its commas. */
  lemma {:induction false} TokensKeepEveryOtherCharacter(s: string)
    ensures Concat(Tokens(s)) == WithoutCommas(s)
    decreases |s|
  {
    if Comma !in s {
      WithoutCommasOfRole(s);
    } else {
      var i := FirstComma(s);
      WithoutCommasAtFirstComma(s, i);
      TokensKeepEveryOtherCharacter(s[i + 1..]);
      var rest := Tokens(s[i + 1..]);
      if i == 0 {
        assert Tokens(s) == rest;
        assert s[..i] + WithoutCommas(s[i + 1..]) == WithoutCommas(s[i + 1..]);
      } else {
        assert Tokens(s) == [s[..i]] + rest;
        assert ([s[..i]] + rest)[1..] == rest;
      }
    }
  }

  lemma AppendAssociative<T>(u: seq<T>, v: seq<T>, w: seq<T>)
    ensures u + (v + w) == (u + v) + w
  {
  }

  /** A claim without commas is one role name, or none when it is empty. */
  lemma TokensWithoutComma(s: string)
    requires Comma !in s
    ensures Tokens(s) == if s == [] then [] else [s]
  {
  }

  /** The split at a comma that has no comma before it. */
  lemma TokensAtFirstComma(s: string, i: nat)
    requires i < |s| && s[i] == Comma && Comma !in s[..i]
    ensures Tokens(s) == (if i == 0 then [] else [s[..i]]) + Tokens(s[i + 1..])
  {
    FirstCommaAt(s, i);
  }

  lemma TokensAtOnlyComma(a: string, b: string)
    requires Comma !in a
    ensures Tokens(a + [Comma] + b) == Tokens(a) + Tokens(b)
  {
    var s := a + [Comma] + b;
    assert s[..|a|] == a && s[|a| + 1..] == b;
    TokensAtFirstComma(s, |a|);
    TokensWithoutComma(a);
  }

  /**
   * A comma splits the claim in two, and the parts are split on their own:
   * an empty entry is dropped, never merged with its neighbours.
   */
  lemma {:induction false} TokensAtComma(a: string, b: string)
    ensures Tokens(a + [Comma] + b) == Tokens(a) + Tokens(b)
    decreases |a|
  {
    if Comma !in a {
      TokensAtOnlyComma(a, b);
    } else {
      var i := FirstComma(a);
      var rest := a[i + 1..];
      var s := a + [Comma] + b;
      assert s[..i] == a[..i] && s[i + 1..] == rest + [Comma] + b;
      TokensAtFirstComma(s, i);
      TokensAtFirstComma(a, i);
      TokensAtComma(rest, b);
      var head: seq<string> := if i == 0 then [] else [a[..i]];
      var x, y := Tokens(rest), Tokens(b);
      assert Tokens(s) == head + (x + y);
      assert Tokens(a) == head + x;
      AppendAssociative(head, x, y);
    }
  }

  /** Two role names joined by a comma give exactly those two authorities, in order. */
  lemma TwoRoles(a: string, b: string)
    requires IsRole(a) && IsRole(b)
    ensures CommaSeparatedStringToAuthorityList(a + [Comma] + b)
         == [SimpleGrantedAuthority(a), SimpleGrantedAuthority(b)]
  {
    TokensAtComma(a, b);
    TokensWithoutComma(a);
    TokensWithoutComma(b);
  }
}
