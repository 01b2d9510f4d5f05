/**
 * The user half of server/src/api.ts: the login ladder and the token check
 * (authMiddleware). Password hashing and token signing belong to foreign
 * libraries and enter as parameters: `passwordMatches(plain, hash)`,
 * `sign(user)` and `verify(token)`.
 */
module Auth {
  import opened Wrappers
  import opened ApiTypes

  const MissingCredentials := "Username & password wajib diisi"
  const UnknownUser := "User tidak ditemukan"
  const WrongPassword := "Password salah"
  const Unauthorized := "Unauthorized"
  const InvalidToken := "Invalid token"

  /** A row of the user table; usernames are unique, so the table is a map from them. */
  datatype User = User(id: nat, username: string, passwordHash: string)

  /** login: missing fields, then unknown user, then wrong password; only then a token. */
  function Login(username: Option<string>, password: Option<string>, users: map<string, User>,
                 passwordMatches: (string, string) -> bool, sign: User -> string): (r: Reply)
    ensures r == Reply(400, ErrorJson(MissingCredentials)) <==> !Truthy(username) || !Truthy(password)
    ensures r == Reply(401, ErrorJson(UnknownUser)) <==>
      Truthy(username) && Truthy(password) && username.value !in users
    ensures r == Reply(401, ErrorJson(WrongPassword)) <==>
      && Truthy(username) && Truthy(password) && username.value in users
      && !passwordMatches(password.value, users[username.value].passwordHash)
    ensures r.code == 200 <==>
      && Truthy(username) && Truthy(password) && username.value in users
      && passwordMatches(password.value, users[username.value].passwordHash)
    ensures r.code == 200 ==> r.body == TokenJson(sign(users[username.value]))
  {
    if !Truthy(username) || !Truthy(password) then Reply(400, ErrorJson(MissingCredentials))
    else if username.value !in users then Reply(401, ErrorJson(UnknownUser))
    else
      var user := users[username.value];
      if !passwordMatches(password.value, user.passwordHash) then Reply(401, ErrorJson(WrongPassword))
      else Reply(200, TokenJson(sign(user)))
  }

  // ------------------------------------------------------ split(" ")

  /** Position of the first space in `s`, or `|s|` when there is none. */
  function SpaceIndex(s: string): (i: nat)
    ensures i <= |s|
    ensures i < |s| ==> s[i] == ' '
  {
    if s == [] || s[0] == ' ' then 0 else 1 + SpaceIndex(s[1..])
  }

  /** No space comes before the one `SpaceIndex` finds. */
  lemma {:induction false} SpaceIndexFirst(s: string)
    ensures forall k :: 0 <= k < SpaceIndex(s) ==> s[k] != ' '
    decreases |s|
  {
    if s != [] && s[0] != ' ' {
      SpaceIndexFirst(s[1..]);
      forall k | 1 <= k < SpaceIndex(s)
        ensures s[k] != ' '
      {
        assert s[k] == s[1..][k - 1];
      }
    }
  }

  /** `s.split(" ")`: the pieces between single spaces, empty ones included. */
  function Split(s: string): (parts: seq<string>)
    ensures |parts| >= 1
    decreases |s|
  {
    var i := SpaceIndex(s);
    if i == |s| then [s] else [s[..i]] + Split(s[i + 1..])
  }

  /** No piece of `split(" ")` contains a space. */
  lemma {:induction false} SplitPiecesSpaceFree(s: string)
    ensures forall i :: 0 <= i < |Split(s)| ==> ' ' !in Split(s)[i]
    decreases |s|
  {
    var i := SpaceIndex(s);
    SpaceIndexFirst(s);
    if i < |s| {
      var tail := s[i + 1..];
      SplitPiecesSpaceFree(tail);
      SplitAtSpace(s, i);
      assert ' ' !in s[..i];
      forall j | 1 <= j < |Split(s)|
        ensures ' ' !in Split(s)[j]
      {
        assert Split(s)[j] == Split(tail)[j - 1];
      }
    }
  }

  /** `parts.join(" ")`. */
  function Join(parts: seq<string>): string
    requires |parts| >= 1
  {
    if |parts| == 1 then parts[0] else parts[0] + " " + Join(parts[1..])
  }

  lemma {:induction false} JoinSplit(s: string)
    ensures Join(Split(s)) == s
    decreases |s|
  {
    var i := SpaceIndex(s);
    if i < |s| {
      var word, tail := s[..i], s[i + 1..];
      JoinSplit(tail);
      SplitAtSpace(s, i);
      assert Join(Split(s)) == word + " " + Join(Split(tail));
      SpaceBetween(s, i);
    } else {
      assert Split(s) == [s];
    }
  }

  lemma SpaceBetween(s: string, i: nat)
    requires i < |s| && s[i] == ' '
    ensures s == s[..i] + " " + s[i + 1..]
  {
  }

  /** At its first space, `s` splits into the word before it and the pieces of the rest. */
  lemma SplitAtSpace(s: string, i: nat)
    requires i == SpaceIndex(s) && i < |s|
    ensures |Split(s)| >= 2 && Split(s)[0] == s[..i] && Split(s)[1..] == Split(s[i + 1..])
  {
  }

  /** A word without spaces followed by a space splits off as the first piece. */
  lemma SplitAfterWord(w: string, rest: string)
    requires ' ' !in w
    ensures Split(w + " " + rest) == [w] + Split(rest)
  {
    var s := w + " " + rest;
    assert forall k :: 0 <= k < |w| ==> s[k] == w[k];
    assert s[|w|] == ' ';
    SpaceIndexFirst(s);
    assert SpaceIndex(s) == |w|;
    assert s[..|w|] == w && s[|w| + 1..] == rest;
  }

  lemma {:induction false} SplitJoin(parts: seq<string>)
    requires |parts| >= 1
    requires forall i :: 0 <= i < |parts| ==> ' ' !in parts[i]
    ensures Split(Join(parts)) == parts
  {
    if |parts| == 1 {
      assert SpaceIndex(parts[0]) == |parts[0]|;
    } else {
      SplitJoin(parts[1..]);
      SplitAfterWord(parts[0], Join(parts[1..]));
    }
  }

  // ---------------------------------------------------- authMiddleware

  /** What authMiddleware decides: call the handler, or answer itself. */
  datatype Gate = Next | Deny(reply: Reply)

  /** `authHeader.split(" ")[1]`: the second word of the header, if there is one. */
  function TokenOf(header: string): Option<string>
  {
    var parts := Split(header);
    if |parts| >= 2 then Some(parts[1]) else None
  }

  /**
   * authMiddleware: no header, 401 "Unauthorized"; a header whose second
   * word is missing or does not verify, 401 "Invalid token"; otherwise the
   * handler runs.
   */
  function AuthMiddleware(header: Option<string>, verify: string -> bool): (g: Gate)
    ensures g == Deny(Reply(401, ErrorJson(Unauthorized))) <==> !Truthy(header)
    ensures g == Deny(Reply(401, ErrorJson(InvalidToken))) <==>
      Truthy(header) && !(TokenOf(header.value).Some? && verify(TokenOf(header.value).value))
    ensures g.Next? <==>
      Truthy(header) && TokenOf(header.value).Some? && verify(TokenOf(header.value).value)
  {
    if !Truthy(header) then Deny(Reply(401, ErrorJson(Unauthorized)))
    else match TokenOf(header.value)
      case None => Deny(Reply(401, ErrorJson(InvalidToken)))
      case Some(token) =>
        if verify(token) then Next else Deny(Reply(401, ErrorJson(InvalidToken)))
  }

  /** The scheme word in front of the token is never looked at. */
  lemma SchemeIgnored(scheme1: string, scheme2: string, rest: string, verify: string -> bool)
    requires ' ' !in scheme1 && ' ' !in scheme2
    ensures AuthMiddleware(Some(scheme1 + " " + rest), verify) ==
            AuthMiddleware(Some(scheme2 + " " + rest), verify)
  {
    SplitAfterWord(scheme1, rest);
    SplitAfterWord(scheme2, rest);
    assert scheme1 + " " + rest != "" && scheme2 + " " + rest != "" by {
      assert |scheme1 + " " + rest| > 0 && |scheme2 + " " + rest| > 0;
    }
  }

  /** `Bearer <token>` passes exactly when the token verifies. */
  lemma BearerHeader(token: string, verify: string -> bool)
    requires ' ' !in token
    ensures AuthMiddleware(Some("Bearer " + token), verify) ==
            if verify(token) then Next else Deny(Reply(401, ErrorJson(InvalidToken)))
  {
    assert "Bearer " + token == "Bearer" + " " + token;
    SplitAfterWord("Bearer", token);
    assert SpaceIndex(token) == |token|;
  }

  /** A header with no space carries no token. */
  lemma OneWordHeaderRejected(header: string, verify: string -> bool)
    requires header != "" && ' ' !in header
    ensures AuthMiddleware(Some(header), verify) == Deny(Reply(401, ErrorJson(InvalidToken)))
  {
    assert SpaceIndex(header) == |header|;
  }

  /**
   * A token issued by login, sent back as `Bearer <token>`, passes the
   * check when what `sign` issues `verify` accepts and contains no space.
   */
  lemma LoginTokenPasses(username: Option<string>, password: Option<string>, users: map<string, User>,
                         passwordMatches: (string, string) -> bool, sign: User -> string,
                         verify: string -> bool)
    requires forall u: User :: verify(sign(u)) && ' ' !in sign(u)
    requires Login(username, password, users, passwordMatches, sign).code == 200
    ensures var t := Login(username, password, users, passwordMatches, sign).body.token;
      AuthMiddleware(Some("Bearer " + t), verify) == Next
  {
    var t := sign(users[username.value]);
    BearerHeader(t, verify);
  }
}
