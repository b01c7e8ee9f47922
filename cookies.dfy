/** Cookie helpers for the session pointer. `getCookie` reads an explicit
    cookie string (what `document.cookie` returns); `setCookie` and
    `deleteCookie` are the strings they assign to `document.cookie`. */
module Cookies {
  import opened Outcomes

  const AuthCookieName := "authUserId"
  const DefaultDays := 7
  const AuthDays := 30
  const DayMs := 24 * 60 * 60 * 1000
  const EpochExpiry := "Thu, 01 Jan 1970 00:00:00 UTC"

  /** `s.split(sep)`: the pieces between separators, empty ones included. */
  function Split(s: string, sep: char): (r: seq<string>)
    ensures |r| >= 1
  {
    if s == [] then [""]
    else
      var rest := Split(s[1..], sep);
      if s[0] == sep then [""] + rest else [[s[0]] + rest[0]] + rest[1..]
  }

  /** `parts.join(sep)`. */
  function Join(parts: seq<string>, sep: char): string {
    if parts == [] then ""
    else if |parts| == 1 then parts[0]
    else parts[0] + [sep] + Join(parts[1..], sep)
  }

  /** No piece of a split contains the separator. */
  lemma {:induction false} SplitPiecesSeparatorFree(s: string, sep: char)
    ensures forall i :: 0 <= i < |Split(s, sep)| ==> sep !in Split(s, sep)[i]
  {
    if s != [] {
      SplitPiecesSeparatorFree(s[1..], sep);
      var rest := Split(s[1..], sep);
      if s[0] != sep {
        assert forall i :: 1 <= i < |Split(s, sep)| ==> Split(s, sep)[i] == rest[i];
        assert sep !in rest[0];
      }
    }
  }

  lemma JoinCons(a: string, rest: seq<string>, sep: char)
    requires |rest| >= 1
    ensures Join([a] + rest, sep) == a + [sep] + Join(rest, sep)
  {
    assert ([a] + rest)[1..] == rest;
  }

  /** Splitting and joining again gives back the string. */
  lemma {:induction false} JoinSplit(s: string, sep: char)
    ensures Join(Split(s, sep), sep) == s
  {
    if s != [] {
      var rest := Split(s[1..], sep);
      JoinSplit(s[1..], sep);
      if s[0] == sep {
        assert s == [sep] + s[1..];
      } else if |rest| == 1 {
        assert s == [s[0]] + s[1..];
      } else {
        assert Split(s, sep)[1..] == rest[1..];
        assert s == [s[0]] + s[1..];
      }
    }
  }

  lemma {:induction false} SplitSeparatorFree(a: string, sep: char)
    requires sep !in a
    ensures Split(a, sep) == [a]
  {
    if a != [] {
      SplitSeparatorFree(a[1..], sep);
      assert a == [a[0]] + a[1..];
    }
  }

  lemma {:induction false} SplitAtSeparator(a: string, b: string, sep: char)
    requires sep !in a
    ensures Split(a + [sep] + b, sep) == [a] + Split(b, sep)
  {
    if a == [] {
      assert ([sep] + b)[1..] == b;
    } else {
      SplitAtSeparator(a[1..], b, sep);
      assert (a + [sep] + b)[1..] == a[1..] + [sep] + b;
      assert a == [a[0]] + a[1..];
    }
  }

  /** Joining separator-free pieces and splitting again gives back the pieces. */
  lemma {:induction false} SplitJoin(parts: seq<string>, sep: char)
    requires |parts| >= 1
    requires forall i :: 0 <= i < |parts| ==> sep !in parts[i]
    ensures Split(Join(parts, sep), sep) == parts
  {
    if |parts| == 1 {
      SplitSeparatorFree(parts[0], sep);
    } else {
      SplitJoin(parts[1..], sep);
      SplitAtSeparator(parts[0], Join(parts[1..], sep), sep);
      assert parts == [parts[0]] + parts[1..];
    }
  }

  /** What `while (c.charAt(0) === ' ') c = c.substring(1)` leaves of `c`:
      the suffix after the run of leading spaces. */
  function StripLeadingSpaces(c: string): string {
    if c != [] && c[0] == ' ' then StripLeadingSpaces(c[1..]) else c
  }

  /** Only leading spaces are removed: the result is a suffix of `c` that does
      not start with a space, and everything cut off was a space. */
  lemma {:induction false} StripLeadingSpacesShape(c: string)
    ensures var r := StripLeadingSpaces(c);
      && |r| <= |c| && r == c[|c| - |r|..]
      && (forall i :: 0 <= i < |c| - |r| ==> c[i] == ' ')
      && (r == [] || r[0] != ' ')
  {
    if c != [] && c[0] == ' ' {
      StripLeadingSpacesShape(c[1..]);
      var r := StripLeadingSpaces(c[1..]);
      assert forall i :: 1 <= i < |c| - |r| ==> c[i] == c[1..][i - 1];
    }
  }

  /** `c.indexOf(prefix) === 0`. */
  predicate StartsWith(c: string, prefix: string) {
    |prefix| <= |c| && c[..|prefix|] == prefix
  }

  /** Whether a `;`-separated segment is the entry `nameEq` looks for. */
  predicate Matches(segment: string, nameEq: string) {
    StartsWith(StripLeadingSpaces(segment), nameEq)
  }

  /** The value of the first segment that, without its leading spaces,
      starts with `nameEq`. */
  function Lookup(segments: seq<string>, nameEq: string): Option<string> {
    if segments == [] then None
    else
      if Matches(segments[0], nameEq) then Some(StripLeadingSpaces(segments[0])[|nameEq|..])
      else Lookup(segments[1..], nameEq)
  }

  /** What `getCookie(name)` returns while `document.cookie` is `cookie`. */
  function CookieValue(cookie: string, name: string): Option<string> {
    Lookup(Split(cookie, ';'), name + "=")
  }

  /** `getCookie`, over an explicit cookie string. */
  method GetCookie(cookie: string, name: string) returns (r: Option<string>)
    ensures r == CookieValue(cookie, name)
  {
    var nameEq := name + "=";
    var ca := Split(cookie, ';');
    for i := 0 to |ca|
      invariant Lookup(ca[i..], nameEq) == Lookup(ca, nameEq)
    {
      var c := ca[i];
      while |c| > 0 && c[0] == ' '
        invariant StripLeadingSpaces(c) == StripLeadingSpaces(ca[i])
      {
        c := c[1..];
      }
      assert ca[i..][1..] == ca[i + 1..];
      if StartsWith(c, nameEq) {
        return Some(c[|nameEq|..]);
      }
    }
    return None;
  }

  /** A segment that matches, with none before it, gives the lookup its value:
      everything after `name=`, trailing spaces included. */
  lemma {:induction false} LookupFirstMatch(segments: seq<string>, nameEq: string, i: nat)
    requires i < |segments| && Matches(segments[i], nameEq)
    requires forall j :: 0 <= j < i ==> !Matches(segments[j], nameEq)
    ensures Lookup(segments, nameEq) == Some(StripLeadingSpaces(segments[i])[|nameEq|..])
    decreases i
  {
    if i > 0 {
      assert !Matches(segments[0], nameEq);
      LookupFirstMatch(segments[1..], nameEq, i - 1);
    }
  }

  /** The lookup finds nothing exactly when no segment matches. */
  lemma {:induction false} LookupNoneIff(segments: seq<string>, nameEq: string)
    ensures Lookup(segments, nameEq) == None <==> forall i :: 0 <= i < |segments| ==> !Matches(segments[i], nameEq)
  {
    if segments != [] {
      LookupNoneIff(segments[1..], nameEq);
      assert forall i :: 1 <= i < |segments| ==> segments[i] == segments[1..][i - 1];
    }
  }

  /** A value found comes from the first matching segment. */
  lemma {:induction false} LookupSomeFirstMatch(segments: seq<string>, nameEq: string)
    requires Lookup(segments, nameEq).Some?
    ensures exists i ::
      && 0 <= i < |segments| && Matches(segments[i], nameEq)
      && (forall j :: 0 <= j < i ==> !Matches(segments[j], nameEq))
      && Lookup(segments, nameEq).value == StripLeadingSpaces(segments[i])[|nameEq|..]
  {
    if !Matches(segments[0], nameEq) {
      LookupSomeFirstMatch(segments[1..], nameEq);
      var i :| 0 <= i < |segments[1..]| && Matches(segments[1..][i], nameEq)
        && (forall j :: 0 <= j < i ==> !Matches(segments[1..][j], nameEq))
        && Lookup(segments[1..], nameEq).value == StripLeadingSpaces(segments[1..][i])[|nameEq|..];
      assert forall j :: 0 <= j < i + 1 ==> !Matches(segments[j], nameEq) by {
        forall j | 0 <= j < i + 1 ensures !Matches(segments[j], nameEq) {
          if j > 0 { assert segments[j] == segments[1..][j - 1]; }
        }
      }
      assert segments[i + 1] == segments[1..][i];
    } else {
      assert Matches(segments[0], nameEq);
    }
  }

  /** In a cookie string whose entries sit between `;` separators, the entry
      `name=value` is found when no entry before it matches, whatever the
      spaces in front of it. */
  lemma CookieValueOfEntries(entries: seq<string>, i: nat, spaces: string, name: string, value: string)
    requires i < |entries|
    requires forall k :: 0 <= k < |entries| ==> ';' !in entries[k]
    requires forall k :: 0 <= k < |spaces| ==> spaces[k] == ' '
    requires name == [] || name[0] != ' '
    requires entries[i] == spaces + (name + "=" + value)
    requires forall j :: 0 <= j < i ==> !Matches(entries[j], name + "=")
    ensures CookieValue(Join(entries, ';'), name) == Some(value)
  {
    var nameEq := name + "=";
    var entry := nameEq + value;
    SplitJoin(entries, ';');
    assert entry[0] != ' ' by {
      if name == [] { assert entry[0] == '='; } else { assert entry[0] == name[0]; }
    }
    StripSpacesPrefix(spaces, entry);
    assert entry[..|nameEq|] == nameEq;
    assert Matches(entries[i], nameEq);
    LookupFirstMatch(entries, nameEq, i);
    assert entry[|nameEq|..] == value;
  }

  lemma {:induction false} StripSpacesPrefix(spaces: string, rest: string)
    requires forall k :: 0 <= k < |spaces| ==> spaces[k] == ' '
    requires rest == [] || rest[0] != ' '
    ensures StripLeadingSpaces(spaces + rest) == rest
  {
    if spaces != [] {
      StripSpacesPrefix(spaces[1..], rest);
      assert (spaces + rest)[1..] == spaces[1..] + rest;
    }
  }

  /** The set/get round trip at the `name=value` level. */
  lemma PairRoundTrip(name: string, value: string)
    requires ';' !in name && ';' !in value && (name == [] || name[0] != ' ')
    ensures CookieValue(name + "=" + value, name) == Some(value)
  {
    assert ';' !in name + "=" + value;
    assert "" + (name + "=" + value) == name + "=" + value;
    CookieValueOfEntries([name + "=" + value], 0, "", name, value);
  }

  /** The expiry instant of a cookie set at `now` for `days` days. */
  function ExpiresAt(now: int, days: int): int {
    now + days * DayMs
  }

  /** The string `setCookie(name, value, days)` assigns to `document.cookie`;
      `toUtc` stands for `Date.prototype.toUTCString`. */
  function SetCookie(name: string, value: string, now: int, toUtc: int -> string, days: int := DefaultDays): string {
    name + "=" + value + ";" + "expires=" + toUtc(ExpiresAt(now, days)) + ";" + "path=/" + ";" + "SameSite=Lax"
  }

  /** The string `deleteCookie(name)` assigns to `document.cookie`. */
  function DeleteCookie(name: string): string {
    name + "=" + ";" + "expires=" + EpochExpiry + ";" + "path=/" + ";"
  }

  /** Regrouping the attribute string around its separators. Kept apart from
      `FourAttributes` so that the regrouping is proved where no `Split` term
      is in scope: inside that lemma the same step is costly. */
  lemma FourJoined(a: string, b: string, c: string, d: string)
    ensures a + ";" + b + ";" + c + ";" + d == a + [';'] + (b + [';'] + (c + [';'] + d))
  {
  }

  /** Four `;`-free attributes joined by `;` split back into those four. */
  lemma FourAttributes(a: string, b: string, c: string, d: string)
    requires ';' !in a && ';' !in b && ';' !in c && ';' !in d
    ensures Split(a + ";" + b + ";" + c + ";" + d, ';') == [a, b, c, d]
  {
    FourJoined(a, b, c, d);
    var cd := c + [';'] + d;
    var bcd := b + [';'] + cd;
    SplitSeparatorFree(d, ';');
    SplitAtSeparator(c, d, ';');
    SplitAtSeparator(b, cd, ';');
    SplitAtSeparator(a, bcd, ';');
  }

  /** The attributes `setCookie` writes, in order. */
  lemma SetCookieEntries(name: string, value: string, now: int, toUtc: int -> string, days: int)
    requires ';' !in name && ';' !in value && ';' !in toUtc(ExpiresAt(now, days))
    ensures Split(SetCookie(name, value, now, toUtc, days), ';')
         == [name + "=" + value, "expires=" + toUtc(ExpiresAt(now, days)), "path=/", "SameSite=Lax"]
  {
    var e := "expires=" + toUtc(ExpiresAt(now, days));
    assert SetCookie(name, value, now, toUtc, days) == (name + "=" + value) + ";" + e + ";" + "path=/" + ";" + "SameSite=Lax";
    FourAttributes(name + "=" + value, e, "path=/", "SameSite=Lax");
  }

  /** Reading back the string `setCookie` writes gives the value set. */
  lemma SetCookieRoundTrip(name: string, value: string, now: int, toUtc: int -> string, days: int)
    requires ';' !in name && ';' !in value && (name == [] || name[0] != ' ')
    ensures CookieValue(SetCookie(name, value, now, toUtc, days), name) == Some(value)
  {
    var s := SetCookie(name, value, now, toUtc, days);
    var rest := "expires=" + toUtc(ExpiresAt(now, days)) + ";" + "path=/" + ";" + "SameSite=Lax";
    assert s == name + "=" + value + [';'] + rest;
    SplitAtSeparator(name + "=" + value, rest, ';');
    StripSpacesPrefix("", name + "=" + value);
    LookupFirstMatch(Split(s, ';'), name + "=", 0);
    assert (name + "=" + value)[|name + "="|..] == value;
  }

  /** The attributes `deleteCookie` writes: an empty value, the 1970 expiry
      and `path=/`. */
  lemma DeleteCookieEntries(name: string)
    requires ';' !in name
    ensures Split(DeleteCookie(name), ';') == [name + "=", "expires=" + EpochExpiry, "path=/", ""]
  {
    var e := "expires=" + EpochExpiry;
    assert DeleteCookie(name) == (name + "=") + ";" + e + ";" + "path=/" + ";" + "";
    assert ';' !in e;
    FourAttributes(name + "=", e, "path=/", "");
  }

  /** `setAuthCookie(userId)`: the session pointer, kept for 30 days. */
  function SetAuthCookie(userId: string, now: int, toUtc: int -> string): string {
    SetCookie(AuthCookieName, userId, now, toUtc, AuthDays)
  }

  /** Reading the session cookie back from what `setAuthCookie` writes gives
      the user id. */
  lemma AuthCookieRoundTrip(userId: string, now: int, toUtc: int -> string)
    requires ';' !in userId
    ensures CookieValue(SetAuthCookie(userId, now, toUtc), AuthCookieName) == Some(userId)
  {
    SetCookieRoundTrip(AuthCookieName, userId, now, toUtc, AuthDays);
  }

  /** `clearAuthCookie()`. */
  function ClearAuthCookie(): string {
    DeleteCookie(AuthCookieName)
  }

  /** `getAuthCookie()`, over an explicit cookie string. */
  method GetAuthCookie(cookie: string) returns (r: Option<string>)
    ensures r == CookieValue(cookie, AuthCookieName)
  {
    r := GetCookie(cookie, AuthCookieName);
  }

  /** The session cookie set at `now` is written with the expiry 30 days,
      2,592,000,000 ms, later, under the name `authUserId`. */
  lemma AuthCookieLifetime(userId: string, now: int, toUtc: int -> string)
    requires ';' !in userId && ';' !in toUtc(now + 2592000000)
    ensures Split(SetAuthCookie(userId, now, toUtc), ';')
         == [AuthCookieName + "=" + userId, "expires=" + toUtc(now + 2592000000), "path=/", "SameSite=Lax"]
  {
    assert ExpiresAt(now, AuthDays) == now + 2592000000;
    SetCookieEntries(AuthCookieName, userId, now, toUtc, AuthDays);
  }
}
