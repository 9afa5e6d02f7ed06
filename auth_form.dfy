/** The credentials form (src/components/AuthForm.jsx): the two cookie
    values are trimmed as JavaScript's `String.prototype.trim` does, and the
    form submits only when both are non-blank. */
module AuthForm {
  import opened Common

  /** The characters `trim` removes: the ECMAScript WhiteSpace and
      LineTerminator code points. */
  function IsJsWhitespace(c: char): (b: bool)
    ensures c as int < 0x80 ==> (b <==> c in " \t\n\U{B}\U{C}\r")
    ensures b ==> !('0' <= c <= '9') && !('a' <= c <= 'z') && !('A' <= c <= 'Z')
  {
    var k := c as int;
    k == 0x09 || k == 0x0A || k == 0x0B || k == 0x0C || k == 0x0D || k == 0x20
    || k == 0xA0 || k == 0x1680 || (0x2000 <= k <= 0x200A)
    || k == 0x2028 || k == 0x2029 || k == 0x202F || k == 0x205F
    || k == 0x3000 || k == 0xFEFF
  }

  predicate AllSpace(s: string) {
    forall i :: 0 <= i < |s| ==> IsJsWhitespace(s[i])
  }

  /** The length of the whitespace run at the start of `s`. */
  function LeadingSpace(s: string): (n: nat)
    ensures n <= |s|
    ensures AllSpace(s[..n])
    ensures n < |s| ==> !IsJsWhitespace(s[n])
  {
    if s == [] || !IsJsWhitespace(s[0]) then 0
    else
      var n := 1 + LeadingSpace(s[1..]);
      assert s[..n] == [s[0]] + s[1..][..n - 1];
      n
  }

  /** The length of the whitespace run at the end of `s`. */
  function TrailingSpace(s: string): (n: nat)
    ensures n <= |s|
    ensures AllSpace(s[|s| - n..])
    ensures n < |s| ==> !IsJsWhitespace(s[|s| - n - 1])
    decreases |s|
  {
    if s == [] || !IsJsWhitespace(s[|s| - 1]) then 0
    else
      var init := s[..|s| - 1];
      var n := 1 + TrailingSpace(init);
      assert s[|s| - n..] == init[|init| - (n - 1)..] + [s[|s| - 1]];
      n
  }

  /** `s.trim()`: `s` without its leading and trailing whitespace. The result
      is empty exactly when `s` is blank, and otherwise starts and ends with
      a character that is not whitespace. */
  function Trim(s: string): (r: string)
    ensures |r| <= |s|
    ensures r == [] <==> AllSpace(s)
    ensures r != [] ==> !IsJsWhitespace(r[0]) && !IsJsWhitespace(r[|r| - 1])
  {
    var a := LeadingSpace(s);
    var rest := s[a..];
    var b := TrailingSpace(rest);
    TrimShape(s, a, rest, b);
    rest[..|rest| - b]
  }

  /** Cutting both whitespace runs leaves an empty string exactly for a
      blank input, and otherwise a string bounded by non-whitespace. */
  lemma TrimShape(s: string, a: nat, rest: string, b: nat)
    requires a == LeadingSpace(s) && rest == s[a..] && b == TrailingSpace(rest)
    ensures var r := rest[..|rest| - b];
            (r == [] <==> AllSpace(s))
            && (r != [] ==> !IsJsWhitespace(r[0]) && !IsJsWhitespace(r[|r| - 1]))
  {
    var r := rest[..|rest| - b];
    if r == [] {
      assert rest == rest[|rest| - b..];
      assert s == s[..a] + rest;
      AllSpaceConcat(s[..a], rest);
    } else {
      assert r[0] == s[a];
      assert !AllSpace(s) by {
        assert !IsJsWhitespace(s[a]);
      }
      assert r[|r| - 1] == rest[|rest| - b - 1];
    }
  }

  lemma AllSpaceConcat(x: string, y: string)
    requires AllSpace(x) && AllSpace(y)
    ensures AllSpace(x + y)
  {
    forall i | 0 <= i < |x + y| ensures IsJsWhitespace((x + y)[i]) {
      if i < |x| {
        assert (x + y)[i] == x[i];
      } else {
        assert (x + y)[i] == y[i - |x|];
      }
    }
  }

  /** A whitespace run ends at the first non-whitespace character. */
  lemma {:induction false} LeadingSpaceOfPadded(pre: string, s: string)
    requires AllSpace(pre)
    requires s != [] && !IsJsWhitespace(s[0])
    ensures LeadingSpace(pre + s) == |pre|
  {
    if pre != [] {
      assert (pre + s)[0] == pre[0];
      assert (pre + s)[1..] == pre[1..] + s;
      LeadingSpaceOfPadded(pre[1..], s);
    }
  }

  lemma {:induction false} TrailingSpaceOfPadded(s: string, post: string)
    requires AllSpace(post)
    requires s != [] && !IsJsWhitespace(s[|s| - 1])
    ensures TrailingSpace(s + post) == |post|
    decreases |post|
  {
    if post == [] {
      assert s + post == s;
    } else {
      var t := s + post;
      assert t[|t| - 1] == post[|post| - 1];
      assert t[..|t| - 1] == s + post[..|post| - 1];
      TrailingSpaceOfPadded(s, post[..|post| - 1]);
    }
  }

  /** `trim` removes exactly the padding: a string that neither starts nor
      ends with whitespace, padded on both sides with whitespace, trims back
      to itself. Every string is such a padding of its trim, so this pins
      `Trim` down completely. */
  lemma TrimRemovesPadding(pre: string, s: string, post: string)
    requires AllSpace(pre) && AllSpace(post)
    requires s != [] ==> !IsJsWhitespace(s[0]) && !IsJsWhitespace(s[|s| - 1])
    ensures Trim(pre + s + post) == s
  {
    var t := pre + s + post;
    if s == [] {
      assert t == pre + post;
      assert AllSpace(t) by {
        forall i | 0 <= i < |t| ensures IsJsWhitespace(t[i]) {
          if i < |pre| { assert t[i] == pre[i]; } else { assert t[i] == post[i - |pre|]; }
        }
      }
    } else {
      assert t == pre + (s + post);
      LeadingSpaceOfPadded(pre, s + post);
      assert t[|pre|..] == s + post;
      TrailingSpaceOfPadded(s, post);
      assert (s + post)[..|s + post| - |post|] == s;
    }
  }

  /** Trimming twice is trimming once. */
  lemma TrimIdempotent(s: string)
    ensures Trim(Trim(s)) == Trim(s)
  {
    TrimRemovesPadding([], Trim(s), []);
    assert [] + Trim(s) + [] == Trim(s);
  }

  /** `handleSubmit`: nothing is submitted when either value is blank;
      otherwise the trimmed values are. */
  function HandleSubmit(authToken: string, csrfToken: string): (creds: Option<Credentials>)
    ensures creds.None? <==> AllSpace(authToken) || AllSpace(csrfToken)
    ensures creds.Some? ==> creds.value.authToken != "" && creds.value.csrfToken != ""
    ensures creds.Some? ==> creds.value == Credentials(Trim(authToken), Trim(csrfToken))
  {
    if Trim(authToken) == "" || Trim(csrfToken) == "" then None
    else Some(Credentials(Trim(authToken), Trim(csrfToken)))
  }

  /** The submit button's `disabled`: on while loading, and whenever either
      field is blank, whitespace-only included. */
  function SubmitDisabled(loading: bool, authToken: string, csrfToken: string): (b: bool)
    ensures loading ==> b
    ensures !loading ==> (b <==> AllSpace(authToken) || AllSpace(csrfToken))
  {
    loading || Trim(authToken) == "" || Trim(csrfToken) == ""
  }

  /** While nothing is loading, the button is enabled exactly when a submit
      would go through, and what goes through is already trimmed. */
  lemma EnabledIffSubmits(authToken: string, csrfToken: string)
    ensures !SubmitDisabled(false, authToken, csrfToken) <==> HandleSubmit(authToken, csrfToken).Some?
    ensures HandleSubmit(authToken, csrfToken).Some? ==>
              var c := HandleSubmit(authToken, csrfToken).value;
              Trim(c.authToken) == c.authToken && Trim(c.csrfToken) == c.csrfToken
  {
    TrimIdempotent(authToken);
    TrimIdempotent(csrfToken);
  }
}
