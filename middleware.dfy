/**
 * The Next.js middleware: NextAuth's default middleware runs on every path
 * the `config.matcher` pattern `/((?!api|signin|signup|_next/static|_next/image|favicon.ico).*)`
 * matches, and sends a request without a session token to the sign-in page.
 */
module Middleware {

  /** The alternatives of the negative lookahead, tried right after the leading `/`. */
  const ExcludedPrefixes: seq<string> := ["api", "signin", "signup", "_next/static", "_next/image", "favicon.ico"]

  /** The characters a regular-expression `.` does not match. */
  predicate IsLineTerminator(c: char)
  {
    c == '\n' || c == '\r' || c == '\U{2028}' || c == '\U{2029}'
  }

  /** Whether `pattern` matches at the start of `s`; a `.` in the pattern matches any other character. */
  predicate MatchesAtStart(s: string, pattern: string)
  {
    && |pattern| <= |s|
    && forall i :: 0 <= i < |pattern| ==>
         if pattern[i] == '.' then !IsLineTerminator(s[i]) else s[i] == pattern[i]
  }

  /** The lookahead fails: one of the alternatives matches at the start of `rest`. */
  predicate Excluded(rest: string)
  {
    exists k :: 0 <= k < |ExcludedPrefixes| && MatchesAtStart(rest, ExcludedPrefixes[k])
  }

  /** The matcher: a leading `/`, then a rest that no alternative starts and `.*` spans. */
  predicate Matched(path: string)
  {
    && |path| >= 1 && path[0] == '/'
    && !Excluded(path[1..])
    && forall i :: 1 <= i < |path| ==> !IsLineTerminator(path[i])
  }

  datatype Decision = Pass | RedirectToSignIn(callbackPath: string)

  /**
   * The middleware's answer for a request: unmatched paths pass untouched;
   * a matched one passes with a session token and is otherwise redirected
   * to sign in, carrying the original path back.
   */
  function Decide(path: string, hasToken: bool): (d: Decision)
    ensures d.RedirectToSignIn? <==> Matched(path) && !hasToken
    ensures d.RedirectToSignIn? ==> d.callbackPath == path
  {
    if Matched(path) && !hasToken then RedirectToSignIn(path) else Pass
  }

  /** Exclusion only looks at a prefix: whatever follows an excluded start stays excluded. */
  lemma {:induction false} ExclusionIsPrefixOnly(rest: string, more: string)
    requires Excluded(rest)
    ensures Excluded(rest + more)
  {
    var k :| 0 <= k < |ExcludedPrefixes| && MatchesAtStart(rest, ExcludedPrefixes[k]);
    var p := ExcludedPrefixes[k];
    assert forall i :: 0 <= i < |p| ==> (rest + more)[i] == rest[i];
    assert MatchesAtStart(rest + more, p);
  }

  /** The root path is matched: without a session `/` is sent to sign in. */
  lemma RootIsGuarded()
    ensures Matched("/")
    ensures Decide("/", false) == RedirectToSignIn("/")
    ensures Decide("/", true) == Pass
  {
    assert !Excluded("") by {
      forall k | 0 <= k < |ExcludedPrefixes| ensures !MatchesAtStart("", ExcludedPrefixes[k]) {
      }
    }
  }

  /** The application's pages are all guarded. */
  lemma PagesAreGuarded()
    ensures Matched("/dashboard") && Matched("/interests") && Matched("/products") && Matched("/profile")
  {
    var pages := ["dashboard", "interests", "products", "profile"];
    forall j | 0 <= j < |pages| ensures !Excluded(pages[j]) {
      forall k | 0 <= k < |ExcludedPrefixes| ensures !MatchesAtStart(pages[j], ExcludedPrefixes[k]) {
        assert pages[j][0] != ExcludedPrefixes[k][0];
      }
    }
    assert "/dashboard"[1..] == pages[0];
    assert "/interests"[1..] == pages[1];
    assert "/products"[1..] == pages[2];
    assert "/profile"[1..] == pages[3];
  }

  /**
   * Paths whose rest starts with an excluded word escape the middleware,
   * including `/signup-x`, `/apiary` and every API route; the `.` of
   * `favicon.ico` is a wildcard, so `/faviconXico` escapes too.
   */
  lemma ExcludedPathsPass()
    ensures !Matched("/api/trpc/categories.list") && !Matched("/signin") && !Matched("/signup")
    ensures !Matched("/_next/static/chunk.js") && !Matched("/_next/image") && !Matched("/favicon.ico")
    ensures !Matched("/signup-x") && !Matched("/apiary") && !Matched("/faviconXico")
    ensures Decide("/apiary", false) == Pass
  {
    assert MatchesAtStart("api/trpc/categories.list", ExcludedPrefixes[0]);
    assert MatchesAtStart("signin", ExcludedPrefixes[1]);
    assert MatchesAtStart("signup", ExcludedPrefixes[2]);
    assert MatchesAtStart("_next/static/chunk.js", ExcludedPrefixes[3]);
    assert MatchesAtStart("_next/image", ExcludedPrefixes[4]);
    assert MatchesAtStart("favicon.ico", ExcludedPrefixes[5]);
    assert MatchesAtStart("signup-x", ExcludedPrefixes[2]);
    assert MatchesAtStart("apiary", ExcludedPrefixes[0]);
    assert MatchesAtStart("faviconXico", ExcludedPrefixes[5]);
  }
}
