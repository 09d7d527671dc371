/**
 * Reading the session token out of a request's Cookie header, as the logout
 * handler of `src/worker/index.ts` does before asking the users service to
 * delete the session.
 *
 * The handler splits the header on ';', takes the first piece that starts
 * with the cookie name followed by '=', splits that piece on '=' and keeps the
 * second part. `TokenAsWritten` models exactly that. A user agent joins
 * cookies with "; " (section 4.2.1 of RFC 6265), so every cookie after the
 * first starts with a space and is never found, and a value that itself holds
 * '=' is cut at its first '='. `SessionToken` is the evidently intended
 * reading, proved to return the value of the first cookie with the given name.
 * `SessionToDelete` is the logout as written; `IntendedSessionToDelete` is the
 * same logout over the intended reading.
 */
module SessionCookie {
  import opened Wrappers

  // ---------------------------------------------------------------------------
  // Splitting and joining on a one-character separator

  /** Concatenation of `parts` with `sep` between neighbours. */
  function Join(parts: seq<string>, sep: char): string
    requires |parts| >= 1
    decreases |parts|
  {
    if |parts| == 1 then parts[0] else parts[0] + [sep] + Join(parts[1..], sep)
  }

  /**
   * String.prototype.split with a one-character separator: the maximal
   * separator-free pieces, empty ones included, so that joining them back
   * gives the string.
   */
  function Split(s: string, sep: char): (parts: seq<string>)
    ensures |parts| >= 1
    ensures forall i :: 0 <= i < |parts| ==> sep !in parts[i]
    ensures |parts| >= 2 <==> sep in s
    ensures Join(parts, sep) == s
  {
    if |s| == 0 then [""]
    else
      var rest := Split(s[1..], sep);
      if s[0] == sep then
        assert ([""] + rest)[1..] == rest;
        [""] + rest
      else
        var parts := [[s[0]] + rest[0]] + rest[1..];
        assert parts[1..] == rest[1..];
        assert s == [s[0]] + s[1..];
        parts
  }

  /** A separator-free prefix followed by the separator is split off as one piece. */
  lemma {:induction false} SplitAfterPiece(a: string, b: string, sep: char)
    requires sep !in a
    ensures Split(a + [sep] + b, sep) == [a] + Split(b, sep)
    decreases |a|
  {
    var s := a + [sep] + b;
    if |a| > 0 {
      assert s[1..] == a[1..] + [sep] + b;
      SplitAfterPiece(a[1..], b, sep);
      assert [a[0]] + a[1..] == a;
    } else {
      assert s[1..] == b;
    }
  }

  /** A separator-free string is one piece. */
  lemma {:induction false} SplitWithoutSeparator(a: string, sep: char)
    requires sep !in a
    ensures Split(a, sep) == [a]
    decreases |a|
  {
    if |a| > 0 {
      SplitWithoutSeparator(a[1..], sep);
      assert [a[0]] + a[1..] == a;
    }
  }

  /** Splitting undoes joining separator-free pieces. */
  lemma {:induction false} SplitJoin(parts: seq<string>, sep: char)
    requires |parts| >= 1
    requires forall i :: 0 <= i < |parts| ==> sep !in parts[i]
    ensures Split(Join(parts, sep), sep) == parts
    decreases |parts|
  {
    if |parts| == 1 {
      SplitWithoutSeparator(parts[0], sep);
    } else {
      SplitJoin(parts[1..], sep);
      SplitAfterPiece(parts[0], Join(parts[1..], sep), sep);
      assert [parts[0]] + parts[1..] == parts;
    }
  }

  // ---------------------------------------------------------------------------
  // Cookies and the header a user agent sends

  /** One name=value pair of a Cookie header. */
  datatype Cookie = Cookie(name: string, value: string)

  /** A cookie name: non-empty, and free of '=', ';' and spaces. */
  predicate ValidName(n: string)
  {
    |n| > 0 && '=' !in n && ';' !in n && ' ' !in n
  }

  /** A cookie value: free of ';' (it may hold '='). */
  predicate ValidValue(v: string)
  {
    ';' !in v
  }

  predicate ValidCookie(c: Cookie)
  {
    ValidName(c.name) && ValidValue(c.value)
  }

  function Pair(c: Cookie): string
  {
    c.name + "=" + c.value
  }

  /** The pieces between the ';' separators of a header: every pair after the first keeps the space. */
  function HeaderPieces(cs: seq<Cookie>): (rows: seq<string>)
    requires |cs| >= 1
    ensures |rows| == |cs|
  {
    seq(|cs|, i requires 0 <= i < |cs| => if i == 0 then Pair(cs[0]) else " " + Pair(cs[i]))
  }

  /** The Cookie header carrying `cs`, in the order given. */
  function CookieHeader(cs: seq<Cookie>): string
    requires |cs| >= 1
  {
    Join(HeaderPieces(cs), ';')
  }

  /** The header follows the grammar of RFC 6265: the pairs separated by "; ". */
  lemma CookieHeaderGrammar(cs: seq<Cookie>)
    requires |cs| >= 1
    ensures |cs| == 1 ==> CookieHeader(cs) == Pair(cs[0])
    ensures |cs| >= 2 ==> CookieHeader(cs) == Pair(cs[0]) + "; " + CookieHeader(cs[1..])
  {
    if |cs| >= 2 {
      var rows, tail := HeaderPieces(cs), HeaderPieces(cs[1..]);
      assert rows[1..] == tail[0 := " " + tail[0]];
      if |tail| == 1 {
        assert Join(rows[1..], ';') == " " + Join(tail, ';');
      } else {
        assert rows[2..] == tail[1..];
        assert Join(rows[1..], ';') == " " + Join(tail, ';');
      }
    }
  }

  // ---------------------------------------------------------------------------
  // Finding the session cookie

  predicate StartsWith(s: string, prefix: string)
  {
    |prefix| <= |s| && s[..|prefix|] == prefix
  }

  lemma PrefixThenRest(s: string, prefix: string)
    requires StartsWith(s, prefix)
    ensures s == prefix + s[|prefix|..]
  {
    assert s == s[..|prefix|] + s[|prefix|..];
  }

  /** Array.prototype.find over the pieces: the index of the first one starting with `prefix`. */
  function FirstMatch(rows: seq<string>, prefix: string): (r: Option<nat>)
    ensures r.Some? ==> r.value < |rows| && StartsWith(rows[r.value], prefix)
    ensures r.Some? ==> forall j :: 0 <= j < r.value ==> !StartsWith(rows[j], prefix)
    ensures r.None? ==> forall j :: 0 <= j < |rows| ==> !StartsWith(rows[j], prefix)
  {
    if |rows| == 0 then None
    else if StartsWith(rows[0], prefix) then Some(0)
    else match FirstMatch(rows[1..], prefix)
      case None => None
      case Some(i) => Some(i + 1)
  }

  /**
   * The handler's reading, as written: no header, or no piece starting with
   * name=, gives no token; otherwise the second '='-separated part of that piece.
   */
  function TokenAsWritten(header: Option<string>, name: string): (tok: Option<string>)
    ensures header.None? ==> tok.None?
    ensures tok.Some? ==> '=' !in tok.value
  {
    match header
    case None => None
    case Some(h) =>
      var rows := Split(h, ';');
      match FirstMatch(rows, name + "=")
      case None => None
      case Some(i) =>
        assert rows[i][|name|] == '=';
        Some(Split(rows[i], '=')[1])
  }

  /** Leading spaces removed. */
  function TrimLeadingSpaces(s: string): (t: string)
    ensures |t| <= |s| && t == s[|s| - |t|..]
    ensures |t| > 0 ==> t[0] != ' '
    ensures (forall i :: 0 <= i < |s| - |t| ==> s[i] == ' ')
  {
    if |s| > 0 && s[0] == ' ' then
      var t := TrimLeadingSpaces(s[1..]);
      assert s[1..][|s| - 1 - |t|..] == s[|s| - |t|..];
      assert forall i :: 1 <= i < |s| - |t| ==> s[i] == s[1..][i - 1];
      t
    else s
  }

  /** Each piece with its leading spaces removed. */
  function TrimEach(pieces: seq<string>): (rows: seq<string>)
    ensures |rows| == |pieces|
    ensures forall i :: 0 <= i < |pieces| ==> rows[i] == TrimLeadingSpaces(pieces[i])
  {
    if |pieces| == 0 then [] else [TrimLeadingSpaces(pieces[0])] + TrimEach(pieces[1..])
  }

  /** A piece of the header that, once its leading spaces are removed, reads name=tok. */
  predicate NamedPiece(piece: string, name: string, tok: string)
  {
    TrimLeadingSpaces(piece) == name + "=" + tok
  }

  /**
   * The intended reading: the pieces between ';' with their leading spaces
   * removed, the first one starting with name=, and everything after that
   * first '='.
   */
  function SessionToken(header: Option<string>, name: string): (tok: Option<string>)
    ensures header.None? ==> tok.None?
    ensures tok.Some? ==> exists piece :: piece in Split(header.value, ';') && NamedPiece(piece, name, tok.value)
  {
    match header
    case None => None
    case Some(h) =>
      var rows := TrimEach(Split(h, ';'));
      match FirstMatch(rows, name + "=")
      case None => None
      case Some(i) =>
        var tok := rows[i][|name| + 1..];
        PrefixThenRest(rows[i], name + "=");
        assert NamedPiece(Split(h, ';')[i], name, tok);
        Some(tok)
  }

  /** The pairs of `cs`, unseparated. */
  function Pairs(cs: seq<Cookie>): (rows: seq<string>)
    ensures |rows| == |cs|
    ensures forall i :: 0 <= i < |cs| ==> rows[i] == Pair(cs[i])
  {
    if |cs| == 0 then [] else [Pair(cs[0])] + Pairs(cs[1..])
  }

  /** The value of the first cookie called `name`. */
  function FirstValue(cs: seq<Cookie>, name: string): (v: Option<string>)
    ensures v.Some? ==> exists i :: 0 <= i < |cs| && cs[i].name == name && cs[i].value == v.value
    ensures v.None? ==> forall i :: 0 <= i < |cs| ==> cs[i].name != name
  {
    if |cs| == 0 then None
    else if cs[0].name == name then Some(cs[0].value)
    else
      var v := FirstValue(cs[1..], name);
      assert forall i :: 1 <= i < |cs| ==> cs[i] == cs[1..][i - 1];
      v
  }

  /** A pair starts with name= exactly when it is the cookie called `name`; what follows is its value. */
  lemma PairMatches(c: Cookie, name: string)
    requires ValidCookie(c) && ValidName(name)
    ensures StartsWith(Pair(c), name + "=") <==> c.name == name
    ensures c.name == name ==> Pair(c)[|name| + 1..] == c.value
  {
    var p := Pair(c);
    assert p == c.name + ['='] + c.value;
    SplitAfterPiece(c.name, c.value, '=');
    if StartsWith(p, name + "=") {
      var rest := p[|name| + 1..];
      assert p == name + ['='] + rest;
      SplitAfterPiece(name, rest, '=');
    }
    if c.name == name {
      assert p[..|name| + 1] == name + "=";
      assert p[|name| + 1..] == c.value;
    }
  }

  /** Over the pairs themselves, the first match is the first cookie called `name`. */
  lemma {:induction false} FirstMatchFindsFirstCookie(cs: seq<Cookie>, name: string)
    requires forall i :: 0 <= i < |cs| ==> ValidCookie(cs[i])
    requires ValidName(name)
    ensures var rows := Pairs(cs);
      match FirstMatch(rows, name + "=")
      case None => FirstValue(cs, name).None?
      case Some(i) => FirstValue(cs, name) == Some(rows[i][|name| + 1..])
    decreases |cs|
  {
    var rows := Pairs(cs);
    if |cs| > 0 {
      PairMatches(cs[0], name);
      if cs[0].name != name {
        FirstMatchFindsFirstCookie(cs[1..], name);
        var tail := Pairs(cs[1..]);
        assert rows[1..] == tail;
        match FirstMatch(tail, name + "=")
        case None =>
        case Some(i) =>
          assert rows[i + 1] == tail[i];
      }
    }
  }

  /**
   * For any header a user agent sends for well-formed cookies, the intended
   * reading returns the value of the first cookie with the session cookie's
   * name, wherever it stands and whatever '=' its value holds.
   */
  lemma SessionTokenFindsFirstCookie(cs: seq<Cookie>, name: string)
    requires |cs| >= 1 && forall i :: 0 <= i < |cs| ==> ValidCookie(cs[i])
    requires ValidName(name)
    ensures SessionToken(Some(CookieHeader(cs)), name) == FirstValue(cs, name)
  {
    var pieces := HeaderPieces(cs);
    forall i | 0 <= i < |pieces| ensures ';' !in pieces[i] {
      assert ';' !in Pair(cs[i]);
    }
    SplitJoin(pieces, ';');
    var rows := TrimEach(pieces);
    var pairs := Pairs(cs);
    forall i | 0 <= i < |cs| ensures rows[i] == pairs[i] {
      var p := Pair(cs[i]);
      assert p[0] == cs[i].name[0] != ' ';
      if i > 0 {
        assert pieces[i] == " " + p;
        assert TrimLeadingSpaces(pieces[i]) == TrimLeadingSpaces(p);
      }
    }
    assert rows == pairs;
    FirstMatchFindsFirstCookie(cs, name);
  }

  /**
   * The reading as written finds only a cookie that comes first in the
   * header, and then keeps its value only up to the first '='.
   */
  lemma TokenAsWrittenSeesOnlyFirstCookie(cs: seq<Cookie>, name: string)
    requires |cs| >= 1 && forall i :: 0 <= i < |cs| ==> ValidCookie(cs[i])
    requires ValidName(name)
    ensures TokenAsWritten(Some(CookieHeader(cs)), name) ==
      if cs[0].name == name then Some(Split(cs[0].value, '=')[0]) else None
  {
    var pieces := HeaderPieces(cs);
    forall i | 0 <= i < |pieces| ensures ';' !in pieces[i] {
      assert ';' !in Pair(cs[i]);
    }
    SplitJoin(pieces, ';');
    PairMatches(cs[0], name);
    forall i | 1 <= i < |pieces| ensures !StartsWith(pieces[i], name + "=") {
      assert pieces[i][0] == ' ' && (name + "=")[0] == name[0] != ' ';
    }
    if cs[0].name == name {
      SplitAfterPiece(name, cs[0].value, '=');
      assert Pair(cs[0]) == name + ['='] + cs[0].value;
    }
  }

  // ---------------------------------------------------------------------------
  // GET /api/logout

  /**
   * The session the logout handler asks the users service to delete: the
   * token it reads from the header as written, when that is a non-empty
   * string (an empty one is falsy and skips the call).
   */
  function SessionToDelete(header: Option<string>, name: string): (r: Option<string>)
    ensures r.Some? ==> |r.value| > 0 && TokenAsWritten(header, name) == r
    ensures r.None? <==> TokenAsWritten(header, name) in {None, Some("")}
  {
    match TokenAsWritten(header, name)
    case Some(tok) => if |tok| > 0 then Some(tok) else None
    case None => None
  }

  /** The same logout over the intended reading of the header. */
  function IntendedSessionToDelete(header: Option<string>, name: string): (r: Option<string>)
    ensures r.Some? ==> |r.value| > 0 && SessionToken(header, name) == r
    ensures r.None? <==> SessionToken(header, name) in {None, Some("")}
  {
    match SessionToken(header, name)
    case Some(tok) => if |tok| > 0 then Some(tok) else None
    case None => None
  }

  /**
   * For a well-formed header the logout as written deletes a session only
   * when the session cookie comes first, and then only the part of its value
   * before the first '='; the intended logout deletes the value of the first
   * session cookie wherever it stands.
   */
  lemma LogoutDeletesOnlyFirstCookie(cs: seq<Cookie>, name: string)
    requires |cs| >= 1 && forall i :: 0 <= i < |cs| ==> ValidCookie(cs[i])
    requires ValidName(name)
    ensures SessionToDelete(Some(CookieHeader(cs)), name).Some? ==> cs[0].name == name
    ensures cs[0].name == name && |Split(cs[0].value, '=')[0]| > 0 ==>
      SessionToDelete(Some(CookieHeader(cs)), name) == Some(Split(cs[0].value, '=')[0])
    ensures FirstValue(cs, name).Some? && |FirstValue(cs, name).value| > 0 ==>
      IntendedSessionToDelete(Some(CookieHeader(cs)), name) == FirstValue(cs, name)
  {
    TokenAsWrittenSeesOnlyFirstCookie(cs, name);
    SessionTokenFindsFirstCookie(cs, name);
  }

  /** The header a user agent sends for a session cookie set after another cookie. */
  lemma LaterCookieHeader()
    ensures CookieHeader([Cookie("a", "1"), Cookie("tok", "xyz")]) == "a=1; tok=xyz"
  {
    var cs := [Cookie("a", "1"), Cookie("tok", "xyz")];
    CookieHeaderGrammar(cs);
    CookieHeaderGrammar(cs[1..]);
    assert cs[1..] == [Cookie("tok", "xyz")];
  }

  /** First finding: the session cookie after another cookie is missed as written, found as intended. */
  lemma LaterCookieMissedAsWritten()
    ensures TokenAsWritten(Some("a=1; tok=xyz"), "tok") == None
    ensures SessionToken(Some("a=1; tok=xyz"), "tok") == Some("xyz")
  {
    var cs := [Cookie("a", "1"), Cookie("tok", "xyz")];
    LaterCookieHeader();
    TokenAsWrittenSeesOnlyFirstCookie(cs, "tok");
    SessionTokenFindsFirstCookie(cs, "tok");
  }

  /** So logout as written deletes no session for that header, where the intended one deletes it. */
  lemma LaterCookieSessionSurvivesLogout()
    ensures SessionToDelete(Some("a=1; tok=xyz"), "tok") == None
    ensures IntendedSessionToDelete(Some("a=1; tok=xyz"), "tok") == Some("xyz")
  {
    LaterCookieMissedAsWritten();
  }

  /** Splitting a padded value on '=' keeps only what precedes the padding. */
  lemma PaddedValueSplit()
    ensures Split("ab==", '=')[0] == "ab"
  {
    var v: string := "ab==";
    assert v == "ab" + ['='] + "=";
    SplitAfterPiece("ab", "=", '=');
  }

  /** Second finding: a session value holding '=' is cut as written, kept whole as intended. */
  lemma PaddedValueCutAsWritten()
    ensures TokenAsWritten(Some("tok=ab=="), "tok") == Some("ab")
    ensures SessionToken(Some("tok=ab=="), "tok") == Some("ab==")
  {
    var cs := [Cookie("tok", "ab==")];
    CookieHeaderGrammar(cs);
    assert CookieHeader(cs) == "tok=ab==";
    TokenAsWrittenSeesOnlyFirstCookie(cs, "tok");
    SessionTokenFindsFirstCookie(cs, "tok");
    PaddedValueSplit();
  }

  /** So logout as written asks to delete a session the header does not name. */
  lemma PaddedValueLogout()
    ensures SessionToDelete(Some("tok=ab=="), "tok") == Some("ab")
    ensures IntendedSessionToDelete(Some("tok=ab=="), "tok") == Some("ab==")
  {
    PaddedValueCutAsWritten();
  }
}
