/**
 * The HTML message sent on joining and on leaving the waitlist.
 *
 * The styled markup is abstracted: each constant below stands for one
 * stretch of fixed markup. The inline styles are elided, and so is most of
 * the text: what is kept is the logo reference, the badges, the heading and
 * the sentence around the name and the address, the tagline and the
 * copyright line. The opening and closing words of the welcome paragraph,
 * the mission box, the button, the goodbye note, the social links and the
 * reason line are left out. What the model keeps exactly is
 * how the message is assembled: which constant stretches appear for which
 * kind, and where the display name and the address are interpolated.
 */
module EmailTemplate {
  import opened Optional

  /** The `type` property: which of the two messages to render. */
  datatype Kind = Welcome | Unsubscribe

  const DefaultName: string := "Friend"
  const LogoRef: string := "cid:jblogo"
  const WelcomeBadge: string := "Waitlist Confirmed"
  const OptOutBadge: string := "Opt-Out Successful"

  /** Header markup up to the logo's source, and from there to the body section. */
  const HeaderOpen: string := "<img src=\""
  const HeaderClose: string := "\" alt=\"JustBook Logo\">"
  /** The page header with the embedded logo, shared by both kinds. */
  const Header: string := HeaderOpen + LogoRef + HeaderClose
  const Tagline: string := "<p>Bridging Excellence & Convenience</p>"
  const Copyright: string := "<p>&copy; 2026 JUSTBOOK LTD. LUSAKA, ZAMBIA</p>"
  /** The footer, shared by both kinds: the tagline and the copyright line (the links and the reason line are elided). */
  const Footer: string := Tagline + Copyright

  /** The badge colour: brand teal for a welcome, brand orange for an opt-out. */
  function BadgeColor(k: Kind): (c: string)
    ensures |c| == 7
  {
    match k
    case Welcome => "#12A19A"
    case Unsubscribe => "#FF921E"
  }

  /** The body section up to the badge text. */
  function BadgeOpen(k: Kind): string {
    "<span color=\"" + BadgeColor(k) + "\">"
  }

  function Badge(k: Kind): string {
    match k
    case Welcome => WelcomeBadge
    case Unsubscribe => OptOutBadge
  }

  /** From the end of the badge to the interpolated display name. */
  function Greeting(k: Kind): string {
    match k
    case Welcome => "</span><h1>Welcome to the Inner Circle, "
    case Unsubscribe => "</span><h1>We're Sorry to See You Go</h1><p>Hello "
  }

  /** From the display name to the interpolated address. */
  function Middle(k: Kind): string {
    match k
    case Welcome => "! \U{1F680}</h1><p>We\U{2019}ve registered <strong>"
    case Unsubscribe => ", this is a official confirmation that <strong>"
  }

  /** From the address to the end of the body section. */
  function Close(k: Kind): string {
    match k
    case Welcome => "</strong> for exclusive early access.</p>"
    case Unsubscribe => "</strong> has been removed from the JustBook waitlist.</p>"
  }

  /** `s` holds `t` as a contiguous piece. */
  predicate Contains(s: string, t: string) {
    exists i | 0 <= i <= |s| :: t <= s[i..]
  }

  lemma ContainsMiddle(a: string, t: string, b: string)
    ensures Contains(a + t + b, t)
  {
    var s := a + t + b;
    assert t <= s[|a|..];
  }

  /** The `type = 'welcome'` default of the destructured parameter. */
  function KindOrDefault(kind: Option<Kind>): (k: Kind)
    ensures kind.None? ==> k == Welcome
    ensures kind.Some? ==> k == kind.value
  {
    kind.GetOr(Welcome)
  }

  /**
   * `name || 'Friend'`: an absent name and an empty name are both falsy,
   * so either one gives the default; the result is never empty.
   */
  function DisplayName(name: Option<string>): (d: string)
    ensures d != []
    ensures name.Some? && name.value != [] ==> d == name.value
    ensures name.None? || name.value == [] ==> d == DefaultName
  {
    if name.Some? && name.value != [] then name.value else DefaultName
  }

  /** Where the badge text starts in a message of kind `k`. */
  function BadgeOffset(k: Kind): nat {
    |Header| + |BadgeOpen(k)|
  }

  /** A piece of `s` stays a piece of `s` with text added on both sides. */
  lemma ContainsGrows(a: string, s: string, b: string, t: string)
    requires Contains(s, t)
    ensures Contains(a + s + b, t)
  {
    var i :| 0 <= i <= |s| && t <= s[i..];
    var u := a + s + b;
    assert u[|a| + i..] == s[i..] + b;
  }

  /** Where the parts of `head + body + foot` sit. */
  lemma Framed(head: string, body: string, foot: string, k: nat)
    requires k <= |body|
    ensures var u := head + body + foot;
      && u[..|head|] == head
      && u[|u| - |foot|..] == foot
      && u[|head| + k..] == body[k..] + foot
  {
  }

  /**
   * The shape of every body, stated for arbitrary fixed stretches: the badge
   * right after its opening markup, then the display name and the address.
   */
  lemma BodyShape(bOpen: string, badge: string, greet: string, d: string, mid: string, e: string, close: string)
    ensures var body := bOpen + (badge + greet + d + mid + e + close);
      && |bOpen| + |badge| <= |body|
      && body[|bOpen|..] == badge + (greet + d + mid + e + close)
      && Contains(body, d) && Contains(body, e)
  {
    var body := bOpen + (badge + greet + d + mid + e + close);
    assert body == (bOpen + badge + greet) + d + (mid + e + close);
    ContainsMiddle(bOpen + badge + greet, d, mid + e + close);
    assert body == (bOpen + badge + greet + d + mid) + e + close;
    ContainsMiddle(bOpen + badge + greet + d + mid, e, close);
  }

  /**
   * The shape of every message, stated for arbitrary fixed stretches: the
   * header `hOpen + logo + hClose`, the body `bOpen + badge + greet + d + mid
   * + e + close`, and the footer `foot`.
   */
  lemma AssemblyShape(hOpen: string, logo: string, hClose: string, bOpen: string, badge: string,
                      greet: string, d: string, mid: string, e: string, close: string, foot: string)
    ensures var header := hOpen + logo + hClose;
      var html := header + (bOpen + (badge + greet + d + mid + e + close)) + foot;
      && html[..|header|] == header
      && html[|html| - |foot|..] == foot
      && badge <= html[|header| + |bOpen|..]
      && Contains(html, logo) && Contains(html, d) && Contains(html, e)
  {
    var header := hOpen + logo + hClose;
    var body := bOpen + (badge + greet + d + mid + e + close);
    BodyShape(bOpen, badge, greet, d, mid, e, close);
    Framed(header, body, foot, |bOpen|);
    ContainsMiddle(hOpen, logo, hClose);
    ContainsGrows([], header, body + foot, logo);
    assert [] + header + (body + foot) == header + body + foot;
    ContainsGrows(header, body, foot, d);
    ContainsGrows(header, body, foot, e);
  }

  /** The body section of a message of kind `k`: badge, display name and address. */
  function Body(k: Kind, displayName: string, email: string): string {
    BadgeOpen(k) + (Badge(k) + Greeting(k) + displayName + Middle(k) + email + Close(k))
  }

  /**
   * `generateEmailHtml({ email, name, type })`: the shared header, then the
   * body of the chosen kind, then the shared footer.
   */
  function GenerateEmailHtml(email: string, name: Option<string>, kind: Option<Kind>): (html: string)
    ensures |Header| + |Footer| <= |html|
    ensures html[..|Header|] == Header && html[|html| - |Footer|..] == Footer
  {
    var body := Body(KindOrDefault(kind), DisplayName(name), email);
    Framed(Header, body, Footer, 0);
    Header + body + Footer
  }

  /**
   * What a message carries: the badge of its kind right after the badge
   * markup, the embedded logo, the display name and the address.
   */
  lemma MessageContents(email: string, name: Option<string>, kind: Option<Kind>)
    ensures var html := GenerateEmailHtml(email, name, kind);
      var k := KindOrDefault(kind);
      && BadgeOffset(k) + |Badge(k)| <= |html|
      && Badge(k) <= html[BadgeOffset(k)..]
      && Contains(html, LogoRef) && Contains(html, DisplayName(name)) && Contains(html, email)
  {
    var k := KindOrDefault(kind);
    AssemblyShape(HeaderOpen, LogoRef, HeaderClose, BadgeOpen(k), Badge(k), Greeting(k),
                  DisplayName(name), Middle(k), email, Close(k), Footer);
  }

  /** Appending the same text on both sides keeps different strings different. */
  lemma FramingKeepsDifference(head: string, x: string, y: string, tail: string)
    requires x != y
    ensures head + x + tail != head + y + tail
  {
    var a, b := head + x + tail, head + y + tail;
    if |x| == |y| {
      assert a[|head|..|head| + |x|] == x;
      assert b[|head|..|head| + |y|] == y;
    } else {
      assert |a| != |b|;
    }
  }

  /** The two kinds of body already differ in their badge colour. */
  lemma BodiesDiffer(d: string, email: string)
    ensures Body(Welcome, d, email) != Body(Unsubscribe, d, email)
  {
    var i := |"<span color=\""| + 1;
    assert BadgeOpen(Welcome)[i] == '1' && BadgeOpen(Unsubscribe)[i] == 'F';
    assert Body(Welcome, d, email)[i] == BadgeOpen(Welcome)[i];
    assert Body(Unsubscribe, d, email)[i] == BadgeOpen(Unsubscribe)[i];
  }

  /** For the same address and name, the welcome and the unsubscribe message differ. */
  lemma KindsGiveDifferentMessages(email: string, name: Option<string>)
    ensures GenerateEmailHtml(email, name, Some(Welcome)) != GenerateEmailHtml(email, name, Some(Unsubscribe))
  {
    var d := DisplayName(name);
    BodiesDiffer(d, email);
    FramingKeepsDifference(Header, Body(Welcome, d, email), Body(Unsubscribe, d, email), Footer);
  }

  /** Leaving `type` out renders the welcome message. */
  lemma DefaultKindIsWelcome(email: string, name: Option<string>)
    ensures GenerateEmailHtml(email, name, None) == GenerateEmailHtml(email, name, Some(Welcome))
  {
  }

  /**
   * The interpolated text is not escaped, so the badge of the other kind can
   * appear in a message: a welcome message for someone named
   * "Opt-Out Successful" carries both badges.
   */
  lemma NameCanCarryTheOtherBadge(email: string)
    ensures var html := GenerateEmailHtml(email, Some(OptOutBadge), Some(Welcome));
      Contains(html, WelcomeBadge) && Contains(html, OptOutBadge)
  {
    var html := GenerateEmailHtml(email, Some(OptOutBadge), Some(Welcome));
    MessageContents(email, Some(OptOutBadge), Some(Welcome));
    assert WelcomeBadge <= html[BadgeOffset(Welcome)..];
  }
}
