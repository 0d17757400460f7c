/** The bearer-token gate (lib/auth.js): it wraps a route handler,
    takes the token from the Authorization header, verifies it and only
    then lets the handler run. */
module Auth {
  import opened Wrappers

  /** `s.split(" ")`: the pieces between single spaces, empty pieces
      included, and always at least one piece. */
  function SplitOnSpace(s: string): (parts: seq<string>)
    ensures 1 <= |parts|
    ensures forall i :: 0 <= i < |parts| ==> ' ' !in parts[i]
    ensures |parts| == 1 <==> ' ' !in s
  {
    if s == [] then [""]
    else
      var rest := SplitOnSpace(s[1..]);
      if s[0] == ' ' then [""] + rest
      else [[s[0]] + rest[0]] + rest[1..]
  }

  /** The text of `s` before its first space, or all of `s` if it has
      none. */
  function UpToSpace(s: string): (w: string)
    ensures w <= s && ' ' !in w
    ensures |w| < |s| ==> s[|w|] == ' '
  {
    if s == [] || s[0] == ' ' then [] else [s[0]] + UpToSpace(s[1..])
  }

  /** The first piece of the split is the text before the first space,
      and the second piece the text between the first space and the
      next. */
  lemma {:induction false} SplitFields(s: string)
    ensures SplitOnSpace(s)[0] == UpToSpace(s)
    ensures ' ' in s ==>
              && 2 <= |SplitOnSpace(s)|
              && SplitOnSpace(s)[1] == UpToSpace(s[|UpToSpace(s)| + 1..])
  {
    if s != [] {
      SplitFields(s[1..]);
      if s[0] != ' ' {
        var k := |UpToSpace(s)|;
        assert UpToSpace(s) == [s[0]] + UpToSpace(s[1..]);
        if ' ' in s {
          assert ' ' in s[1..] by {
            var j :| 0 <= j < |s| && s[j] == ' ';
            assert s[1..][j - 1] == ' ';
          }
          assert s[1..][k - 1 + 1..] == s[k + 1..];
        }
      }
    }
  }

  /** `authHeader && authHeader.split(" ")[1]`, where `None` is null or
      undefined: no header gives null, an empty header gives itself, and
      a header with no space gives undefined. */
  function TokenOf(authHeader: Option<string>): (token: Option<string>)
    ensures authHeader.None? ==> token.None?
    ensures authHeader == Some("") ==> token == Some("")
  {
    match authHeader
    case None => None
    case Some(header) =>
      if header == "" then Some("")
      else
        var parts := SplitOnSpace(header);
        if |parts| < 2 then None else Some(parts[1])
  }

  /** JavaScript truthiness of the token: present and not empty. */
  predicate Truthy(token: Option<string>) {
    token.Some? && token.value != ""
  }

  /** The token is the text after the header's first space, up to the
      next space; a header without a space has no token. */
  lemma TokenAfterFirstSpace(header: string)
    ensures ' ' !in header ==> !Truthy(TokenOf(Some(header)))
    ensures ' ' in header ==>
              TokenOf(Some(header)) == Some(UpToSpace(header[|UpToSpace(header)| + 1..]))
  {
    SplitFields(header);
  }

  /** The text before the first space of `w + rest` is `w` when `w` has
      no space and `rest` is empty or starts with one. */
  lemma {:induction false} UpToSpaceOfWord(w: string, rest: string)
    requires ' ' !in w && (rest == [] || rest[0] == ' ')
    ensures UpToSpace(w + rest) == w
  {
    if w != [] {
      assert (w + rest)[1..] == w[1..] + rest;
      UpToSpaceOfWord(w[1..], rest);
    }
  }

  /** A header `scheme + " " + field + rest`, with no space in `scheme` or
      `field` and `rest` empty or starting with a space, carries `field`. */
  lemma HeaderFields(scheme: string, field: string, rest: string)
    requires ' ' !in scheme && ' ' !in field && (rest == [] || rest[0] == ' ')
    ensures TokenOf(Some(scheme + " " + field + rest)) == Some(field)
  {
    var header := scheme + " " + field + rest;
    assert header == scheme + (" " + field + rest);
    UpToSpaceOfWord(scheme, " " + field + rest);
    assert header[|scheme|] == ' ';
    assert header[|scheme| + 1..] == field + rest;
    UpToSpaceOfWord(field, rest);
    TokenAfterFirstSpace(header);
  }

  /** "Bearer abc" carries "abc"; "Bearer abc def" carries "abc"; and
      "Bearer", "Bearer " and "Bearer  abc" carry no usable token. */
  lemma BearerExamples()
    ensures TokenOf(Some("Bearer abc")) == Some("abc")
    ensures TokenOf(Some("Bearer abc def")) == Some("abc")
    ensures TokenOf(Some("Bearer")) == None
    ensures TokenOf(Some("Bearer ")) == Some("")
    ensures TokenOf(Some("Bearer  abc")) == Some("")
  {
    HeaderFields("Bearer", "abc", "");
    assert "Bearer abc" == "Bearer" + " " + "abc" + "";
    HeaderFields("Bearer", "abc", " def");
    assert "Bearer abc def" == "Bearer" + " " + "abc" + " def";
    HeaderFields("Bearer", "", "");
    assert "Bearer " == "Bearer" + " " + "" + "";
    HeaderFields("Bearer", "", " abc");
    assert "Bearer  abc" == "Bearer" + " " + "" + " abc";
    assert ' ' !in "Bearer";
  }

  /** What the wrapped route answers: a 401 with a message, or whatever
      the handler returned. */
  datatype AuthResponse<R> = Rejected(status: int, message: string) | Handled(result: R)

  const NoTokenMessage: string := "No token provided"
  const InvalidTokenMessage: string := "Invalid token"

  /** authenticateToken(handler)(req): `verify` stands for `jwt.verify`
      with the server's secret (`None` when it throws), and the handler
      sees the request with `user` set to the decoded token. */
  function Authenticate<U, R>(authHeader: Option<string>, verify: string -> Option<U>, handler: U -> R)
    : (resp: AuthResponse<R>)
    ensures !Truthy(TokenOf(authHeader)) ==> resp == Rejected(401, NoTokenMessage)
    ensures Truthy(TokenOf(authHeader)) && verify(TokenOf(authHeader).value).None? ==>
              resp == Rejected(401, InvalidTokenMessage)
    ensures Truthy(TokenOf(authHeader)) && verify(TokenOf(authHeader).value).Some? ==>
              resp == Handled(handler(verify(TokenOf(authHeader).value).value))
    ensures authHeader.None? ==> resp == Rejected(401, NoTokenMessage)
  {
    var token := TokenOf(authHeader);
    if !Truthy(token) then Rejected(401, NoTokenMessage)
    else match verify(token.value)
      case None => Rejected(401, InvalidTokenMessage)
      case Some(decoded) => Handled(handler(decoded))
  }

  /** A rejected request never reaches the handler: whichever handler is
      wrapped, the rejection is the same. */
  lemma RejectionIgnoresHandler<U, R>(authHeader: Option<string>, verify: string -> Option<U>,
                                      handler: U -> R, other: U -> R)
    requires Authenticate(authHeader, verify, handler).Rejected?
    ensures Authenticate(authHeader, verify, other) == Authenticate(authHeader, verify, handler)
  {
  }
}
