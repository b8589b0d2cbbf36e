/**
 * The session cookie of the authentication library: the `Set-Cookie` text that
 * `createAuthCookie` builds, how a user agent reads it back (section 5.2 of
 * RFC 6265), and `getCookieValue`, the server's lookup in a `Cookie` header.
 */
module Cookies {
  import opened Wrappers
  import opened Strings
  import opened Auth

  /** A `Set-Cookie` header value: its name-value pair and the attributes after it. */
  datatype SetCookie = SetCookie(name: string, value: string, attributes: seq<string>)

  /** Each attribute preceded by `"; "`. */
  function AttributesText(attributes: seq<string>): string {
    if attributes == [] then "" else "; " + attributes[0] + AttributesText(attributes[1..])
  }

  /** The header text `name=value; attr1; attr2; ...`. */
  function Render(c: SetCookie): string {
    c.name + "=" + c.value + AttributesText(c.attributes)
  }

  /** The attributes of the session cookie, `Expires` last. */
  function AuthCookieAttributes(expires: string): seq<string> {
    ["HttpOnly", "Secure", "SameSite=Strict", "Path=/", "Max-Age=" + Decimal(CookieMaxAge), "Expires=" + expires]
  }

  /**
   * `createAuthCookie`: `site_auth=<hash>; HttpOnly; Secure; SameSite=Strict; Path=/;
   * Max-Age=2592000; Expires=<expires>`, where `expires` is the `toUTCString()` text of
   * the expiry instant, supplied by the caller.
   */
  function CreateAuthCookie(hashed: string, expires: string): (c: string)
    ensures StartsWith(c, CookieName + "=" + hashed)
    ensures |expires| <= |c| && c[|c| - |expires|..] == expires
  {
    var attributes := AuthCookieAttributes(expires);
    AttributesTextEnd(attributes, "Expires=", expires);
    Render(SetCookie(CookieName, hashed, attributes))
  }

  lemma {:induction false} AttributesTextEnd(attributes: seq<string>, key: string, last: string)
    requires |attributes| >= 1 && attributes[|attributes| - 1] == key + last
    ensures |last| <= |AttributesText(attributes)|
    ensures AttributesText(attributes)[|AttributesText(attributes)| - |last|..] == last
  {
    if |attributes| > 1 {
      AttributesTextEnd(attributes[1..], key, last);
    }
  }

  /** The `Max-Age` value is the decimal text of thirty days in seconds. */
  lemma MaxAgeText()
    ensures Decimal(CookieMaxAge) == "2592000"
  {
    assert CookieMaxAge == 2592000;
    assert Decimal(2) == "2";
    assert Decimal(25) == "25";
    assert Decimal(259) == "259";
    assert Decimal(2592) == "2592";
    assert Decimal(25920) == "25920";
    assert Decimal(259200) == "259200";
  }

  // ---------------------------------------------------------------------------
  // The user agent's side: parsing a Set-Cookie header

  /** Every string trimmed: one piece per input, none longer, none with whitespace at an end. */
  function TrimAll(pieces: seq<string>): (r: seq<string>)
    ensures |r| == |pieces|
    ensures forall i :: 0 <= i < |r| ==>
      && |r[i]| <= |pieces[i]|
      && (r[i] == [] || (!IsWhitespace(r[i][0]) && !IsWhitespace(r[i][|r[i]| - 1])))
  {
    seq(|pieces|, i requires 0 <= i < |pieces| => Trim(pieces[i]))
  }

  /** Trimming adds no occurrence of a character the pieces lack. */
  lemma TrimAllKeepsLacks(pieces: seq<string>, c: char)
    requires forall i :: 0 <= i < |pieces| ==> Lacks(pieces[i], c)
    ensures forall i :: 0 <= i < |pieces| ==> Lacks(TrimAll(pieces)[i], c)
  {
    forall i | 0 <= i < |pieces| ensures Lacks(TrimAll(pieces)[i], c) {
      TrimKeepsLacks(pieces[i], c);
    }
  }

  /**
   * The parsing steps of section 5.2 of RFC 6265, without the attribute semantics:
   * the name-value pair runs to the first `;` and splits at its first `=`; the other
   * `;`-separated pieces are the attributes; everything is trimmed. `None` when the
   * pair has no `=`. Two simplifications against the RFC: the trimming removes
   * JavaScript whitespace rather than only spaces and tabs, and a cookie with an
   * empty name is returned rather than ignored. Neither matters for the cookies
   * `Printable` admits, whose parts have no whitespace at their ends and whose name
   * is not empty.
   */
  function ParseSetCookie(header: string): Option<SetCookie> {
    var parts := Split(header, ';');
    var eq := Find(parts[0], '=');
    if eq == |parts[0]| then None
    else Some(SetCookie(Trim(parts[0][..eq]), Trim(parts[0][eq + 1..]), TrimAll(parts[1..])))
  }

  /** Text that survives splitting at `;` and trimming unchanged. */
  predicate Atom(s: string) {
    s != [] && Lacks(s, ';') && !IsWhitespace(s[0]) && !IsWhitespace(s[|s| - 1])
  }

  /** Every attribute is an atom. */
  predicate AllAtoms(attributes: seq<string>) {
    forall i :: 0 <= i < |attributes| ==> Atom(attributes[i])
  }

  /** A cookie whose rendering reads back as itself. */
  predicate Printable(c: SetCookie) {
    Atom(c.name) && Lacks(c.name, '=') && (c.value == [] || Atom(c.value)) && AllAtoms(c.attributes)
  }

  /** Each attribute preceded by the space that follows its `;`. */
  function Spaced(attributes: seq<string>): (r: seq<string>)
    ensures |r| == |attributes| && forall i :: 0 <= i < |r| ==> r[i] == " " + attributes[i]
  {
    if attributes == [] then [] else [" " + attributes[0]] + Spaced(attributes[1..])
  }

  /** The first attribute's `;`, then that attribute behind its space, then the rest. */
  lemma AttributesTextCons(attributes: seq<string>)
    requires attributes != []
    ensures AttributesText(attributes) == [';'] + ((" " + attributes[0]) + AttributesText(attributes[1..]))
  {
    var a0, t := attributes[0], AttributesText(attributes[1..]);
    assert "; " + a0 + t == [';'] + ((" " + a0) + t);
  }

  /** Splitting rendered attributes at `;` yields each attribute behind one space. */
  lemma {:induction false} SplitAttributes(prefix: string, attributes: seq<string>)
    requires Lacks(prefix, ';') && AllAtoms(attributes)
    ensures Split(prefix + AttributesText(attributes), ';') == [prefix] + Spaced(attributes)
    decreases |attributes|
  {
    SplitNoSeparator(prefix, ';');
    if attributes == [] {
      assert prefix + AttributesText(attributes) == prefix;
    } else {
      var next, rest := " " + attributes[0], attributes[1..];
      var tail := next + AttributesText(rest);
      LacksConcat(" ", attributes[0], ';');
      AttributesTextCons(attributes);
      assert prefix + AttributesText(attributes) == prefix + [';'] + tail;
      SplitAppend(prefix, ';', tail);
      assert AllAtoms(rest) by {
        forall i | 0 <= i < |rest| ensures Atom(rest[i]) { assert rest[i] == attributes[i + 1]; }
      }
      SplitAttributes(next, rest);
    }
  }

  /** One leading space is all `trim` removes from an atom. */
  lemma TrimOneSpace(s: string)
    requires Atom(s)
    ensures Trim(" " + s) == s
  {
    assert (" " + s)[1..] == s;
    assert TrimStart(" " + s) == TrimStart(s) == s;
    TrimIdentity(s);
  }

  /** Trimming the spaced attributes gives the attributes back. */
  lemma TrimAllSpaced(attributes: seq<string>)
    requires AllAtoms(attributes)
    ensures TrimAll(Spaced(attributes)) == attributes
  {
    forall i | 0 <= i < |attributes| ensures Trim(" " + attributes[i]) == attributes[i] {
      TrimOneSpace(attributes[i]);
    }
  }

  /** The pair `name=value` has no `;`, and its first `=` is the one after the name. */
  lemma PairParts(name: string, value: string)
    requires Lacks(name, '=') && Lacks(name, ';') && Lacks(value, ';')
    ensures var pair := name + "=" + value;
      && Lacks(pair, ';') && Find(pair, '=') == |name|
      && pair[..|name|] == name && pair[|name| + 1..] == value
  {
    var pair := name + "=" + value;
    LacksConcat(name, "=", ';');
    LacksConcat(name + "=", value, ';');
    assert pair[..|name|] == name;
    FindAt(pair, '=', |name|);
  }

  /** A user agent reads back exactly the cookie that was rendered. */
  lemma RenderParse(c: SetCookie)
    requires Printable(c)
    ensures ParseSetCookie(Render(c)) == Some(c)
  {
    var pair := c.name + "=" + c.value;
    PairParts(c.name, c.value);
    SplitAttributes(pair, c.attributes);
    var parts := Split(Render(c), ';');
    assert parts == [pair] + Spaced(c.attributes);
    assert parts[0] == pair && parts[1..] == Spaced(c.attributes);
    TrimIdentity(c.name);
    TrimIdentity(c.value);
    TrimAllSpaced(c.attributes);
  }

  /** The name and the fixed-text attributes of the session cookie are atoms. */
  lemma FixedTextsAreAtoms()
    ensures Atom(CookieName) && Lacks(CookieName, '=')
    ensures Atom("HttpOnly") && Atom("Secure") && Atom("SameSite=Strict") && Atom("Path=/")
    ensures Atom("Max-Age=2592000")
  {
  }

  /** The session cookie's attributes, with the `Max-Age` text written out. */
  lemma AuthAttributesText(expires: string)
    ensures AuthCookieAttributes(expires)
         == ["HttpOnly", "Secure", "SameSite=Strict", "Path=/", "Max-Age=2592000", "Expires=" + expires]
  {
    MaxAgeText();
    assert "Max-Age=" + "2592000" == "Max-Age=2592000";
  }

  /** The attributes of the session cookie are atoms when the expiry text is. */
  lemma AuthAttributesAreAtoms(expires: string)
    requires Lacks(expires, ';') && (expires == [] || !IsWhitespace(expires[|expires| - 1]))
    ensures AllAtoms(AuthCookieAttributes(expires))
  {
    FixedTextsAreAtoms();
    AuthAttributesText(expires);
    LacksConcat("Expires=", expires, ';');
    var attributes := AuthCookieAttributes(expires);
    assert Atom(attributes[5]);
  }

  /** The issued session cookie reads back as `site_auth` with its value and the six fixed-form attributes. */
  lemma AuthCookieParses(hashed: string, expires: string)
    requires hashed == [] || Atom(hashed)
    requires Lacks(expires, ';') && (expires == [] || !IsWhitespace(expires[|expires| - 1]))
    ensures ParseSetCookie(CreateAuthCookie(hashed, expires))
         == Some(SetCookie("site_auth", hashed,
                           ["HttpOnly", "Secure", "SameSite=Strict", "Path=/", "Max-Age=2592000", "Expires=" + expires]))
  {
    FixedTextsAreAtoms();
    AuthAttributesAreAtoms(expires);
    RenderParse(SetCookie(CookieName, hashed, AuthCookieAttributes(expires)));
    AuthAttributesText(expires);
  }

  /**
   * The `;`-separated pieces of a `Cookie` header, each trimmed: at least one, and
   * none holds a `;` or has whitespace at an end.
   */
  function CookiePieces(header: string): (pieces: seq<string>)
    ensures |pieces| >= 1
    ensures forall i :: 0 <= i < |pieces| ==>
      && Lacks(pieces[i], ';')
      && (pieces[i] == [] || (!IsWhitespace(pieces[i][0]) && !IsWhitespace(pieces[i][|pieces[i]| - 1])))
  {
    var parts := Split(header, ';');
    SplitPieces(header, ';');
    TrimAllKeepsLacks(parts, ';');
    TrimAll(parts)
  }

  /** A header written as `;`-joined pairs yields those pairs back, trimmed. */
  lemma CookiePiecesOfJoin(pairs: seq<string>)
    requires |pairs| >= 1 && forall i :: 0 <= i < |pairs| ==> Lacks(pairs[i], ';')
    ensures CookiePieces(Join(pairs, ";")) == TrimAll(pairs)
  {
    SplitJoin(pairs, ';');
  }

  /** `pieces.find(c => c.startsWith(prefix))`, as an index. */
  function FindPrefixed(pieces: seq<string>, prefix: string): (k: Option<nat>)
    ensures k.None? <==> forall i :: 0 <= i < |pieces| ==> !StartsWith(pieces[i], prefix)
    ensures k.Some? ==> k.value < |pieces| && StartsWith(pieces[k.value], prefix)
                        && forall i :: 0 <= i < k.value ==> !StartsWith(pieces[i], prefix)
  {
    if pieces == [] then None
    else if StartsWith(pieces[0], prefix) then Some(0)
    else
      match FindPrefixed(pieces[1..], prefix)
      case None => None
      case Some(k) => Some(k + 1)
  }

  /** `getCookieValue`: the value of the first cookie named `name` in the `Cookie` header. */
  function GetCookieValue(header: Option<string>, name: string): (v: Option<string>)
    ensures !Truthy(header) ==> v == None
    ensures Truthy(header) ==>
      var pieces := CookiePieces(header.value);
      && (v.None? <==> forall i :: 0 <= i < |pieces| ==> !StartsWith(pieces[i], name + "="))
      && (v.Some? ==> exists k :: 0 <= k < |pieces| && StartsWith(pieces[k], name + "=")
                                 && v.value == pieces[k][|name| + 1..]
                                 && forall i :: 0 <= i < k ==> !StartsWith(pieces[i], name + "="))
  {
    if !Truthy(header) then None
    else
      var pieces := CookiePieces(header.value);
      match FindPrefixed(pieces, name + "=")
      case None => None
      case Some(k) => Some(pieces[k][|name| + 1..])
  }

  /** The first piece of a split is the text before the first separator. */
  lemma SplitFirst(s: string, x: string, c: char)
    requires StartsWith(s, x + [c]) && Lacks(x, c)
    ensures Split(s, c)[0] == x
  {
    assert s[..|x|] == x && s[|x|] == c;
    FindAt(s, c, |x|);
  }

  /** A header holding the single pair `name=value` yields `value`. */
  lemma LookupSinglePair(name: string, value: string)
    requires Lacks(name + "=" + value, ';')
    requires name != [] && !IsWhitespace(name[0])
    requires value != [] && !IsWhitespace(value[|value| - 1])
    ensures GetCookieValue(Some(name + "=" + value), name) == Some(value)
  {
    var pair := name + "=" + value;
    SplitNoSeparator(pair, ';');
    TrimIdentity(pair);
    var pieces := CookiePieces(pair);
    assert |pieces| == 1 && pieces[0] == pair;
    assert StartsWith(pair, name + "=");
    assert FindPrefixed(pieces, name + "=") == Some(0);
  }

  /** A browser echoing the issued cookie's name-value pair gets the digest text back from the lookup. */
  lemma IssuedCookieReadBack(d: Digest, expires: string)
    ensures var c := CreateAuthCookie(HexEncode(d), expires);
      var pair := Split(c, ';')[0];
      GetCookieValue(Some(pair), CookieName) == Some(HexEncode(d))
  {
    var h := HexEncode(d);
    var nv := CookieName + "=" + h;
    assert Lacks(nv, ';') by {
      forall i | 0 <= i < |nv| ensures nv[i] != ';' {
        if i >= |CookieName| + 1 { assert nv[i] == h[i - |CookieName| - 1]; assert IsLowerHex(h[i - |CookieName| - 1]); }
      }
    }
    SplitFirst(CreateAuthCookie(h, expires), nv, ';');
    assert IsLowerHex(h[|h| - 1]);
    LookupSinglePair(CookieName, h);
  }
}
