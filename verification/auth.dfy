/**
 * The e-mail rule the login and forgot-password pages share: the pattern
 * `^[a-zA-Z0-9._%+-]+@[a-zA-Z0-9.-]+\.[a-zA-Z]{2,}$`, written once as a
 * reference predicate over positions and once as a checker, with a proof
 * that the two agree.
 */
module AuthEmail {
  import opened Wrappers
  import opened Text

  /** A character of the part before `@`. */
  predicate LocalChar(c: char)
  {
    IsAsciiLetter(c) || IsDigit(c) || c == '.' || c == '_' || c == '%' || c == '+' || c == '-'
  }

  /** A character of the domain before its last dot. */
  predicate DomainChar(c: char)
  {
    IsAsciiLetter(c) || IsDigit(c) || c == '.' || c == '-'
  }

  /** The pattern matches the whole of `s` with `@` at `at` and the final `.` at `dot`. */
  ghost predicate MatchesAt(s: string, at: int, dot: int)
  {
    && 0 < at && at + 1 < dot && dot + 3 <= |s|
    && s[at] == '@' && s[dot] == '.'
    && (forall k :: 0 <= k < at ==> LocalChar(s[k]))
    && (forall k :: at < k < dot ==> DomainChar(s[k]))
    && (forall k :: dot < k < |s| ==> IsAsciiLetter(s[k]))
  }

  /** The pattern's language: some way of placing `@` and the last dot matches. */
  ghost predicate MatchesPattern(s: string)
  {
    exists at, dot :: MatchesAt(s, at, dot)
  }

  /** The first position of `c`, if any. */
  function FirstIndex(s: string, c: char): (r: Option<nat>)
    ensures r.None? <==> c !in s
    ensures r.Some? ==> r.value < |s| && s[r.value] == c && forall k :: 0 <= k < r.value ==> s[k] != c
  {
    if |s| == 0 then None
    else if s[0] == c then Some(0)
    else
      match FirstIndex(s[1..], c)
      case None => None
      case Some(i) =>
        assert forall k :: 1 <= k < i + 1 ==> s[k] == s[1..][k - 1];
        Some(i + 1)
  }

  /** The last position of `c`, if any. */
  function LastIndex(s: string, c: char): (r: Option<nat>)
    ensures r.None? <==> c !in s
    ensures r.Some? ==> r.value < |s| && s[r.value] == c && forall k :: r.value < k < |s| ==> s[k] != c
  {
    if |s| == 0 then None
    else if s[|s| - 1] == c then Some(|s| - 1)
    else
      var init := s[..|s| - 1];
      assert forall k :: 0 <= k < |init| ==> init[k] == s[k];
      assert c in s ==> c in init by {
        if c in s {
          var k :| 0 <= k < |s| && s[k] == c;
          assert init[k] == c;
        }
      }
      LastIndex(init, c)
  }

  /** `validateEmail`. */
  predicate ValidEmail(s: string)
  {
    match (FirstIndex(s, '@'), LastIndex(s, '.'))
    case (Some(at), Some(dot)) =>
      && 0 < at && at + 1 < dot && dot + 3 <= |s|
      && (forall k | 0 <= k < at :: LocalChar(s[k]))
      && (forall k | at < k < dot :: DomainChar(s[k]))
      && (forall k | dot < k < |s| :: IsAsciiLetter(s[k]))
    case _ => false
  }

  /** The checker accepts exactly the pattern's language. */
  lemma ValidEmailIffPattern(s: string)
    ensures ValidEmail(s) <==> MatchesPattern(s)
  {
    if ValidEmail(s) {
      assert MatchesAt(s, FirstIndex(s, '@').value, LastIndex(s, '.').value);
    }
    if MatchesPattern(s) {
      var at, dot :| MatchesAt(s, at, dot);
      assert '@' in s && '.' in s;
      var at' := FirstIndex(s, '@').value;
      var dot' := LastIndex(s, '.').value;
      assert at' == at;
      assert dot' == dot;
    }
  }

  /** The empty input is never valid, so the pages' `!email ||` adds nothing. */
  lemma EmptyEmailInvalid()
    ensures !ValidEmail("")
  {
  }

  /** A one-letter top-level domain is refused; two letters are enough. */
  lemma EmailExamples()
    ensures ValidEmail("a@b.co")
    ensures !ValidEmail("a@b.c")
  {
    assert MatchesAt("a@b.co", 1, 3);
    ValidEmailIffPattern("a@b.co");
    ValidEmailIffPattern("a@b.c");
  }
}

/** The login page: its submit checks, the login reply, and the token check's routing. */
module Login {
  import opened Wrappers
  import opened AuthEmail

  const InvalidEmailMessage := "Please enter a valid email."
  const PasswordRequiredMessage := "Password is required."
  const LoginFailedMessage := "Login failed. Please try again."

  /** The two error lines and the spinner after the submit handler's checks. */
  datatype Form = Form(emailError: string, passwordError: string, loading: bool)

  /** What `handleSubmit` did: the form, and the `{email, password}` body it posted, if any. */
  datatype Submitted = Submitted(form: Form, request: Option<(string, string)>)

  /**
   * `handleSubmit` up to the request: both errors cleared, then the e-mail
   * checked, then the password; a failed check stops there.
   */
  function HandleSubmit(email: string, password: string): (r: Submitted)
    ensures r.request.Some? <==> ValidEmail(email) && password != ""
    ensures r.request.Some? ==> r.request.value == (email, password) && r.form == Form("", "", true)
    ensures !ValidEmail(email) ==> r.form == Form(InvalidEmailMessage, "", false)
    ensures ValidEmail(email) && password == "" ==> r.form == Form("", PasswordRequiredMessage, false)
  {
    if email == "" || !ValidEmail(email) then Submitted(Form(InvalidEmailMessage, "", false), None)
    else if password == "" then Submitted(Form("", PasswordRequiredMessage, false), None)
    else Submitted(Form("", "", true), Some((email, password)))
  }

  /** With both fields wrong only the e-mail is reported: the password is not looked at. */
  lemma EmailReportedFirst(email: string, password: string)
    requires !ValidEmail(email)
    ensures HandleSubmit(email, password) == HandleSubmit(email, "")
    ensures HandleSubmit(email, password).form.passwordError == ""
  {
  }

  /** How the login request ended. */
  datatype LoginReply = Reply(ok: bool, message: Option<string>) | Threw

  datatype LoginResult = GoToFeed | ShowPasswordError(message: string)

  /** The rest of `handleSubmit`: an ok reply goes to the feed, any other shows a message. */
  function FinishLogin(reply: LoginReply): (r: LoginResult)
    ensures r == GoToFeed <==> reply.Reply? && reply.ok
    ensures reply.Reply? && !reply.ok && reply.message.Some? && reply.message.value != "" ==>
      r == ShowPasswordError(reply.message.value)
    ensures reply.Threw? || (!reply.ok && (reply.message.None? || reply.message.value == "")) ==>
      r == ShowPasswordError(LoginFailedMessage)
  {
    match reply
    case Threw => ShowPasswordError(LoginFailedMessage)
    case Reply(ok, message) =>
      if ok then GoToFeed
      else if message.Some? && message.value != "" then ShowPasswordError(message.value)
      else ShowPasswordError(LoginFailedMessage)
  }

  /** The route a verified token leads to. */
  function RouteForRole(role: string): (path: string)
    ensures path == "/admin" <==> role == "admin"
    ensures path != "/admin" ==> path == "/feed"
  {
    if role == "admin" then "/admin" else "/feed"
  }

  /** How the token check ended. */
  datatype TokenReply = Verified(role: string) | Rejected | Failed

  datatype TokenResult = TokenResult(navigate: Option<string>, clearStoredToken: bool)

  /**
   * `verifyToken`: a verified token routes by role; a rejected one is
   * removed from storage; a thrown error does neither.
   */
  function VerifyToken(reply: TokenReply): (r: TokenResult)
    ensures r.navigate.Some? <==> reply.Verified?
    ensures reply.Verified? ==> r.navigate.value == RouteForRole(reply.role)
    ensures r.clearStoredToken <==> reply.Rejected?
  {
    match reply
    case Verified(role) => TokenResult(Some(RouteForRole(role)), false)
    case Rejected => TokenResult(None, true)
    case Failed => TokenResult(None, false)
  }

  /**
   * Only the token check knows about roles: a password login goes to the
   * feed even for an administrator, whom the token check sends to /admin.
   */
  lemma PasswordLoginIgnoresRole()
    ensures FinishLogin(Reply(true, None)) == GoToFeed
    ensures VerifyToken(Verified("admin")).navigate == Some("/admin")
    ensures forall role :: role != "admin" ==> VerifyToken(Verified(role)).navigate == Some("/feed")
  {
  }
}

/** The forgot-password page: its submit guard, the body it posts, and the reply. */
module ForgotPassword {
  import opened Wrappers
  import opened AuthEmail
  import Login

  const InvalidEmailMessage := "Please enter a valid email address."

  /** What `handleSubmit` did: the error line, and the `{email}` body it posted, if any. */
  datatype Submitted = Submitted(emailError: string, request: Option<string>)

  /** `handleSubmit` up to the request: the error cleared, then the e-mail checked. */
  function HandleSubmit(email: string): (r: Submitted)
    ensures r.request.Some? <==> ValidEmail(email)
    ensures r.request.Some? ==> r.request.value == email && r.emailError == ""
    ensures r.request.None? ==> r.emailError == InvalidEmailMessage
  {
    if email == "" || !ValidEmail(email) then Submitted(InvalidEmailMessage, None)
    else Submitted("", Some(email))
  }

  /**
   * The page lets through exactly the addresses the login page lets
   * through, and posts the address it was given.
   */
  lemma SameAddressesAsLogin(email: string, password: string)
    requires password != ""
    ensures HandleSubmit(email).request.Some? <==> Login.HandleSubmit(email, password).request.Some?
    ensures HandleSubmit(email).request.Some? ==> Login.HandleSubmit(email, password).request.value.0 == HandleSubmit(email).request.value
  {
  }

  datatype ForgotReply = Reply(ok: bool, message: Option<string>) | Threw

  /** The alert shown, and whether closing it goes to the login page. */
  datatype Notice = Notice(title: string, text: string, thenLogin: bool)

  function FinishRequest(reply: ForgotReply): (n: Notice)
    ensures n.thenLogin <==> reply.Threw? || reply.ok
    ensures reply.Reply? && reply.ok ==> n.title == "Reset Link Sent!"
    ensures reply.Reply? && !reply.ok && reply.message.Some? && reply.message.value != "" ==> n.text == reply.message.value
  {
    match reply
    case Threw => Notice("Error!", "An error occurred while processing your request. Please try again later.", true)
    case Reply(ok, message) =>
      if !ok then
        Notice("Error!", if message.Some? && message.value != "" then message.value else "Something went wrong. Please try again later.", false)
      else Notice("Reset Link Sent!", "A reset link has been sent to your email.", true)
  }
}

/**
 * The password page reached from a register or reset link: the link check
 * on load, the password rules, and the request on submit. The link's type
 * comes from its fragment, read as a query string; percent-decoding of that
 * query is not modelled.
 */
module PasswordSettings {
  import opened Wrappers
  import opened Text
  import opened Seqs
  import AuthEmail
  import ProductsRoute

  const TooShortMessage := "Password must be at least 6 characters long"
  const MismatchMessage := "Passwords do not match"
  const MinLength := 6

  datatype Check = Check(valid: bool, passwordError: string, confirmPasswordError: string)

  /** `validatePasswords`: both rules are checked and both errors can show at once. */
  function ValidatePasswords(newPassword: string, confirmPassword: string): (r: Check)
    ensures r.valid <==> |newPassword| >= MinLength && newPassword == confirmPassword
    ensures r.passwordError != "" <==> |newPassword| < MinLength
    ensures r.confirmPasswordError != "" <==> newPassword != confirmPassword
    ensures r.passwordError != "" ==> r.passwordError == TooShortMessage
    ensures r.confirmPasswordError != "" ==> r.confirmPasswordError == MismatchMessage
  {
    var passwordError := if |newPassword| < MinLength then TooShortMessage else "";
    var confirmError := if newPassword != confirmPassword then MismatchMessage else "";
    Check(passwordError == "" && confirmError == "", passwordError, confirmError)
  }

  /** `s.replace('#', '?')`: only the first `#` is replaced. */
  function ReplaceFirst(s: string, from: char, to: char): (r: string)
    ensures |r| == |s|
    ensures forall k :: 0 <= k < |s| ==> r[k] == if s[k] == from && from !in s[..k] then to else s[k]
  {
    if |s| == 0 then s
    else if s[0] == from then
      [to] + s[1..]
    else
      var rest := ReplaceFirst(s[1..], from, to);
      assert forall k :: 1 <= k <= |s| ==> s[..k] == [s[0]] + s[1..][..k - 1];
      [s[0]] + rest
  }

  /**
   * One `name=value` piece of a query: the name is the text before the
   * first `=`, the value the text after it, and a piece without `=` is a
   * name with an empty value.
   */
  function ParsePair(piece: string): (pair: (string, string))
    ensures '=' !in piece ==> pair == (piece, "")
    ensures '=' in piece ==> '=' !in pair.0 && piece == pair.0 + "=" + pair.1
  {
    match AuthEmail.FirstIndex(piece, '=')
    case None => (piece, "")
    case Some(i) =>
      assert '=' !in piece[..i] by {
        assert forall k :: 0 <= k < i ==> piece[..i][k] == piece[k];
      }
      assert piece == piece[..i] + "=" + piece[i + 1..];
      (piece[..i], piece[i + 1..])
  }

  predicate NonEmptyPiece(piece: string)
  {
    piece != ""
  }

  /** Each piece read as a pair, in order. */
  function ParseEach(pieces: seq<string>): ProductsRoute.Params
  {
    seq(|pieces|, i requires 0 <= i < |pieces| => ParsePair(pieces[i]))
  }

  /** The pairs of the pieces, read one at a time; `ParsePairsSkipsEmpty` states what they are. */
  function ParsePairs(pieces: seq<string>): ProductsRoute.Params
  {
    if |pieces| == 0 then []
    else if pieces[0] == "" then ParsePairs(pieces[1..])
    else [ParsePair(pieces[0])] + ParsePairs(pieces[1..])
  }

  /** The pairs of the pieces are the non-empty pieces, each read as a pair, in order. */
  lemma {:induction false} ParsePairsSkipsEmpty(pieces: seq<string>)
    ensures ParsePairs(pieces) == ParseEach(Filter(pieces, NonEmptyPiece))
  {
    ParsePairsKept(pieces);
  }

  lemma {:induction false} ParsePairsKept(pieces: seq<string>)
    ensures ParsePairs(pieces) == ParseEach(Kept(pieces, NonEmptyPiece))
  {
    if |pieces| > 0 {
      ParsePairsKept(pieces[1..]);
      var rest := Kept(pieces[1..], NonEmptyPiece);
      if pieces[0] != "" {
        assert Kept(pieces, NonEmptyPiece) == [pieces[0]] + rest;
        assert ParseEach([pieces[0]] + rest) == [ParsePair(pieces[0])] + ParseEach(rest);
      }
    }
  }

  /**
   * `new URLSearchParams(s)`: a leading `?` dropped, `&`-separated pieces,
   * empty ones skipped; no name holds `=` or `&` and no value holds `&`.
   * `ParseQueryOfSerialized` reads back what the route's serialiser writes.
   */
  function ParseQuery(s: string): (r: ProductsRoute.Params)
    ensures forall i :: 0 <= i < |r| ==> '=' !in r[i].0 && '&' !in r[i].0 && '&' !in r[i].1
  {
    var body := if |s| > 0 && s[0] == '?' then s[1..] else s;
    PairsWithout(Split(body, '&'));
    ParsePairs(Split(body, '&'))
  }

  lemma {:induction false} PairsWithout(pieces: seq<string>)
    requires forall i :: 0 <= i < |pieces| ==> '&' !in pieces[i]
    ensures forall i :: 0 <= i < |ParsePairs(pieces)| ==>
      '=' !in ParsePairs(pieces)[i].0 && '&' !in ParsePairs(pieces)[i].0 && '&' !in ParsePairs(pieces)[i].1
  {
    if |pieces| > 0 {
      PairsWithout(pieces[1..]);
      PairWithout(pieces[0], '&');
    }
  }

  /** A character missing from a piece is missing from its name and value. */
  lemma PairWithout(piece: string, c: char)
    requires c !in piece
    ensures c !in ParsePair(piece).0 && c !in ParsePair(piece).1
  {
    var pair := ParsePair(piece);
    if '=' in piece {
      assert forall k :: 0 <= k < |pair.0| ==> pair.0[k] == piece[k];
      assert forall k :: 0 <= k < |pair.1| ==> pair.1[k] == piece[|pair.0| + 1 + k];
    }
  }

  /**
   * What the products route writes with an encoder that leaves text alone
   * reads back as the same parameters, provided no name holds `=` or `&`
   * and no value holds `&`.
   */
  lemma ParseQueryOfSerialized(params: ProductsRoute.Params)
    requires forall i :: 0 <= i < |params| ==> '=' !in params[i].0 && '&' !in params[i].0 && '&' !in params[i].1
    ensures ParseQuery("?" + ProductsRoute.Serialize(params, ProductsRoute.Verbatim)) == params
  {
    var pieces := ProductsRoute.EntryPieces(params, ProductsRoute.Verbatim);
    var text := ProductsRoute.Serialize(params, ProductsRoute.Verbatim);
    assert ("?" + text)[1..] == text;
    if |params| == 0 {
      assert Split(text, '&') == [""];
    } else {
      forall i | 0 <= i < |pieces| ensures '&' !in pieces[i] && pieces[i] != "" && ParsePair(pieces[i]) == params[i] {
        PieceOfEntry(params[i].0, params[i].1);
      }
      SplitOfJoin(pieces, '&');
      FilterAll(pieces, NonEmptyPiece);
      ParsePairsSkipsEmpty(pieces);
    }
  }

  /** `name=value` reads back as its name and value, when the name holds no `=`. */
  lemma PieceOfPair(name: string, value: string)
    requires '=' !in name
    ensures ParsePair(name + "=" + value) == (name, value)
  {
    var piece := name + "=" + value;
    assert piece[|name|] == '=';
    assert forall k :: 0 <= k < |name| ==> piece[k] == name[k];
    assert AuthEmail.FirstIndex(piece, '=') == Some(|name|);
    assert piece[..|name|] == name && piece[|name| + 1..] == value;
  }

  lemma PieceOfEntry(name: string, value: string)
    requires '=' !in name && '&' !in name && '&' !in value
    ensures '&' !in name + "=" + value && name + "=" + value != ""
    ensures ParsePair(name + "=" + value) == (name, value)
  {
    PieceOfPair(name, value);
  }

  /** The link's type: the `type` parameter of the fragment read as a query. */
  function LinkType(hash: string): (t: Option<string>)
    ensures t.Some? ==> '&' !in t.value
  {
    ProductsRoute.Get(ParseQuery(ReplaceFirst(hash, '#', '?')), "type")
  }

  /** `piece` is the `type` parameter with value `v`: `type=v`, or a bare `type` with an empty value. */
  predicate TypePiece(piece: string, v: string)
  {
    piece == "type=" + v || (piece == "type" && v == "")
  }

  /** `piece` names the `type` parameter. */
  predicate NamesType(piece: string)
  {
    piece == "type" || "type=" <= piece
  }

  /**
   * The type of a link whose fragment is `#` then `q`: the value of the first
   * `&`-separated piece of `q` that names `type`, and none when no piece
   * does.
   */
  lemma LinkTypeOfQuery(q: string)
    ensures LinkType("#" + q).None? <==> forall i :: 0 <= i < |Split(q, '&')| ==> !NamesType(Split(q, '&')[i])
    ensures LinkType("#" + q).Some? ==> exists i :: (0 <= i < |Split(q, '&')|
      && TypePiece(Split(q, '&')[i], LinkType("#" + q).value)
      && forall k :: 0 <= k < i ==> !NamesType(Split(q, '&')[k]))
  {
    FragmentAsQuery(q);
    assert ("?" + q)[1..] == q;
    TypeOfPieces(Split(q, '&'));
  }

  /** The `type` of the pairs of some pieces is that of the first piece naming it. */
  lemma {:induction false} TypeOfPieces(pieces: seq<string>)
    ensures ProductsRoute.Get(ParsePairs(pieces), "type").None? <==> forall i :: 0 <= i < |pieces| ==> !NamesType(pieces[i])
    ensures ProductsRoute.Get(ParsePairs(pieces), "type").Some? ==> exists i :: (0 <= i < |pieces|
      && TypePiece(pieces[i], ProductsRoute.Get(ParsePairs(pieces), "type").value)
      && forall k :: 0 <= k < i ==> !NamesType(pieces[k]))
  {
    if |pieces| > 0 {
      TypeOfPieces(pieces[1..]);
      if NamesType(pieces[0]) {
        TypeOfFirstPiece(pieces);
      } else {
        TypeAfterFirstPiece(pieces);
        var t := ProductsRoute.Get(ParsePairs(pieces), "type");
        if t.Some? {
          var i :| 0 <= i < |pieces[1..]| && TypePiece(pieces[1..][i], t.value)
            && forall k :: 0 <= k < i ==> !NamesType(pieces[1..][k]);
          assert TypePiece(pieces[i + 1], t.value);
        }
      }
    }
  }

  lemma TypeOfFirstPiece(pieces: seq<string>)
    requires |pieces| > 0 && NamesType(pieces[0])
    ensures ProductsRoute.Get(ParsePairs(pieces), "type") == Some(ParsePair(pieces[0]).1)
    ensures TypePiece(pieces[0], ParsePair(pieces[0]).1)
  {
    NamesTypeOfPair(pieces[0]);
  }

  lemma TypeAfterFirstPiece(pieces: seq<string>)
    requires |pieces| > 0 && !NamesType(pieces[0])
    ensures ProductsRoute.Get(ParsePairs(pieces), "type") == ProductsRoute.Get(ParsePairs(pieces[1..]), "type")
  {
    NamesTypeOfPair(pieces[0]);
  }

  lemma PrefixThenRest(p: string, s: string)
    requires p <= s
    ensures s == p + s[|p|..]
  {
    assert s[..|p|] == p;
    assert s == s[..|p|] + s[|p|..];
  }

  /** A piece names `type` exactly when its name is `type`, and then it carries its value. */
  lemma NamesTypeOfPair(piece: string)
    ensures NamesType(piece) <==> ParsePair(piece).0 == "type"
    ensures NamesType(piece) ==> TypePiece(piece, ParsePair(piece).1)
  {
    var pair := ParsePair(piece);
    if "type=" <= piece {
      PrefixThenRest("type=", piece);
      assert "type=" == "type" + "=";
      PieceOfPair("type", piece[5..]);
    }
    if '=' in piece && pair.0 == "type" {
      assert piece == "type" + "=" + pair.1;
      assert piece[..5] == "type=";
    }
  }

  /** A fragment that is exactly `#type=` followed by a `&`-free type names that type. */
  lemma LinkTypeOfFragment(t: string)
    requires '&' !in t
    ensures LinkType("#type=" + t) == Some(t)
  {
    assert "#type=" + t == "#" + ("type=" + t);
    FragmentAsQuery("type=" + t);
    QueryOfOnePair("type=" + t, t);
  }

  /** Only the leading `#` of a fragment turns into `?`. */
  lemma FragmentAsQuery(rest: string)
    ensures ReplaceFirst("#" + rest, '#', '?') == "?" + rest
  {
    var s := "#" + rest;
    var r := ReplaceFirst(s, '#', '?');
    forall k | 0 < k < |s| ensures r[k] == s[k] {
      assert s[..k][0] == '#';
    }
    assert s[..0] == [];
  }

  lemma QueryOfOnePair(body: string, t: string)
    requires body == "type=" + t && '&' !in t
    ensures ParseQuery("?" + body) == [("type", t)]
  {
    assert ("?" + body)[1..] == body;
    assert body == "type" + "=" + t;
    PieceOfEntry("type", t);
    SplitFromWhole(body, '&', "");
    assert "" + body == body;
    assert ParsePairs([body]) == [ParsePair(body)] by {
      assert [body][1..] == [];
    }
  }

  /** Where the page sends the token to be checked. */
  datatype LinkCheck = NotChecked | InvalidLink | VerifyAt(endpoint: string)

  /**
   * The effect on load: nothing without a fragment or a token; a link whose
   * type is neither register nor forgot is refused; otherwise the token is
   * checked at the endpoint of its type.
   */
  function CheckLink(api: string, hash: string, token: Option<string>): (r: LinkCheck)
    ensures r.NotChecked? <==> hash == "" || token.None? || token.value == ""
    ensures r.InvalidLink? <==> !r.NotChecked? && LinkType(hash) != Some("register") && LinkType(hash) != Some("forgot")
    ensures r.VerifyAt? && LinkType(hash) == Some("register") ==> r.endpoint == api + "/user/verify-token-register"
    ensures r.VerifyAt? && LinkType(hash) == Some("forgot") ==> r.endpoint == api + "/user/verify-token-forgot"
  {
    if hash == "" || token.None? || token.value == "" then NotChecked
    else
      var t := LinkType(hash);
      if t.None? || t.value == "" || (t.value != "register" && t.value != "forgot") then InvalidLink
      else VerifyAt(if t.value == "register" then api + "/user/verify-token-register" else api + "/user/verify-token-forgot")
  }

  /** A link with no fragment at all is never refused: the check does not run. */
  lemma NoFragmentNeverRefused(api: string, token: Option<string>)
    ensures CheckLink(api, "", token) == NotChecked
  {
  }

  /** The request `handleSubmit` sends: the endpoint, empty for an unknown type, and the body. */
  datatype PasswordRequest = PasswordRequest(endpoint: string, password: Option<string>)

  datatype Submitted = Refused(check: Check) | Sent(check: Check, request: PasswordRequest)

  /** `handleSubmit`: the rules first, then the endpoint chosen by the link's type. */
  function HandleSubmit(api: string, newPassword: string, confirmPassword: string, hash: Option<string>): (r: Submitted)
    ensures r.Sent? <==> ValidatePasswords(newPassword, confirmPassword).valid
    ensures r.check == ValidatePasswords(newPassword, confirmPassword)
    ensures r.Sent? && LinkType(hash.GetOr("")) == Some("register") ==>
      r.request == PasswordRequest(api + "/user/password", Some(newPassword))
    ensures r.Sent? && LinkType(hash.GetOr("")) == Some("forgot") ==>
      r.request == PasswordRequest(api + "/user/resetpassword", Some(newPassword))
    ensures r.Sent? && LinkType(hash.GetOr("")) != Some("register") && LinkType(hash.GetOr("")) != Some("forgot") ==>
      r.request == PasswordRequest("", None)
  {
    var check := ValidatePasswords(newPassword, confirmPassword);
    if !check.valid then Refused(check)
    else
      var t := LinkType(hash.GetOr(""));
      if t == Some("register") then Sent(check, PasswordRequest(api + "/user/password", Some(newPassword)))
      else if t == Some("forgot") then Sent(check, PasswordRequest(api + "/user/resetpassword", Some(newPassword)))
      else Sent(check, PasswordRequest("", None))
  }

  /**
   * A link the load check accepted gets a real endpoint on submit, and the
   * same kind of endpoint as the one its token was checked at.
   */
  lemma AcceptedLinkHasEndpoint(api: string, hash: string, token: Option<string>, p: string, q: string)
    requires CheckLink(api, hash, token).VerifyAt?
    requires ValidatePasswords(p, q).valid
    ensures var r := HandleSubmit(api, p, q, Some(hash));
      && r.request.password == Some(p)
      && (CheckLink(api, hash, token).endpoint == api + "/user/verify-token-register" <==> r.request.endpoint == api + "/user/password")
  {
  }
}
