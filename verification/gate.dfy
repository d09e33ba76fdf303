/** The identity gate of the protected routes: `getUserFromToken`
    (src/supabase/functions/server/index.tsx:58-70). The identity provider's
    token check is a parameter, `verify`. */
module Gate {
  import opened Wrappers
  import opened Text
  import opened Records

  /** The second space-separated word of the Authorization header, when it
      is present and non-empty. The first word is not checked. */
  function BearerToken(header: Option<string>): (t: Option<string>)
    ensures t.Some? ==> header.Some? && |t.value| > 0 && ' ' !in t.value
    ensures t.Some? ==>
              exists w :: ' ' !in w
                && (|| header.value == w + [' '] + t.value
                    || (exists more :: header.value == w + [' '] + t.value + [' '] + more))
  {
    if header.None? then None
    else
      var parts := Split(header.value, ' ');
      if |parts| >= 2 && |parts[1]| > 0 then
        HeaderShape(header.value, parts);
        Some(parts[1])
      else None
  }

  lemma HeaderShape(h: string, parts: seq<string>)
    requires parts == Split(h, ' ') && |parts| >= 2
    ensures h == parts[0] + [' '] + parts[1]
            || (exists more :: h == parts[0] + [' '] + parts[1] + [' '] + more)
  {
    JoinSplit(h, ' ');
    if |parts| == 2 {
      assert Join(parts, ' ') == parts[0] + [' '] + Join(parts[1..], ' ');
      assert Join(parts[1..], ' ') == parts[1];
    } else {
      var more := Join(parts[2..], ' ');
      assert parts[1..][1..] == parts[2..];
      assert Join(parts[1..], ' ') == parts[1] + [' '] + more;
      assert h == parts[0] + [' '] + (parts[1] + [' '] + more);
      assert h == parts[0] + [' '] + parts[1] + [' '] + more;
    }
  }

  /** `getUserFromToken`: no token, or a token the provider rejects, gives None. */
  function Authenticate(header: Option<string>, verify: string -> Option<AuthUser>): (caller: Option<AuthUser>)
    ensures BearerToken(header).None? ==> caller.None?
    ensures BearerToken(header).Some? ==> caller == verify(BearerToken(header).value)
  {
    match BearerToken(header)
    case None => None
    case Some(token) => verify(token)
  }

  /** `Bearer <token>` yields the token, whatever the first word is. */
  lemma {:induction false} WellFormedHeader(scheme: string, token: string)
    requires ' ' !in scheme && ' ' !in token && |token| > 0
    ensures BearerToken(Some(scheme + " " + token)) == Some(token)
  {
    SplitAfterPiece(scheme, ' ', token);
    SplitWithoutSeparator(token, ' ');
    assert scheme + " " + token == scheme + [' '] + token;
  }

  /** A header with no space has no second word: every protected route answers 401. */
  lemma {:induction false} NoSecondWord(header: string, verify: string -> Option<AuthUser>)
    requires ' ' !in header
    ensures Authenticate(Some(header), verify) == None
  {
    SplitWithoutSeparator(header, ' ');
  }

  /** Two spaces after the scheme leave an empty second word: no token. */
  lemma {:induction false} DoubleSpaceHasNoToken(scheme: string, token: string)
    requires ' ' !in scheme
    ensures BearerToken(Some(scheme + "  " + token)) == None
  {
    SplitAfterPiece(scheme, ' ', " " + token);
    assert " " + token == [] + [' '] + token;
    SplitAfterPiece([], ' ', token);
    assert scheme + "  " + token == scheme + [' '] + (" " + token);
  }
}
