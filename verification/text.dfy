/** String primitives the scripts rely on: `String.prototype.trim`,
    `toLowerCase`, `includes`, and JavaScript's `s || d` on strings. */
module Text {

  /** The characters ECMAScript's `trim` removes: WhiteSpace (tab, vertical
      tab, form feed, space, no-break space, byte-order mark and the other
      Zs characters) and LineTerminator (LF, CR, LS, PS). */
  predicate IsTrimSpace(c: char) {
    || c == '\t' || c == '\n' || c == '\U{000B}' || c == '\U{000C}' || c == '\r'
    || c == ' ' || c == '\U{00A0}' || c == '\U{1680}'
    || ('\U{2000}' <= c <= '\U{200A}')
    || c == '\U{2028}' || c == '\U{2029}' || c == '\U{202F}' || c == '\U{205F}'
    || c == '\U{3000}' || c == '\U{FEFF}'
  }

  /** Drops the leading run of trim characters. */
  function TrimStart(s: string): (r: string)
    ensures |r| <= |s|
    decreases |s|
  {
    if s != [] && IsTrimSpace(s[0]) then TrimStart(s[1..]) else s
  }

  /** `TrimStart` removes a prefix made only of trim characters and stops
      at the first other character. */
  lemma {:induction false} TrimStartSpec(s: string)
    ensures var r := TrimStart(s);
      && r == s[|s| - |r|..]
      && (forall i :: 0 <= i < |s| - |r| ==> IsTrimSpace(s[i]))
      && (r == [] || !IsTrimSpace(r[0]))
    decreases |s|
  {
    if s != [] && IsTrimSpace(s[0]) {
      TrimStartSpec(s[1..]);
    }
  }

  /** Drops the trailing run of trim characters. */
  function TrimEnd(s: string): (r: string)
    ensures |r| <= |s|
    decreases |s|
  {
    if s != [] && IsTrimSpace(s[|s| - 1]) then TrimEnd(s[..|s| - 1]) else s
  }

  /** `TrimEnd` removes a suffix made only of trim characters and stops at
      the last other character. */
  lemma {:induction false} TrimEndSpec(s: string)
    ensures var r := TrimEnd(s);
      && r == s[..|r|]
      && (forall i :: |r| <= i < |s| ==> IsTrimSpace(s[i]))
      && (r == [] || !IsTrimSpace(r[|r| - 1]))
    decreases |s|
  {
    if s != [] && IsTrimSpace(s[|s| - 1]) {
      TrimEndSpec(s[..|s| - 1]);
    }
  }

  /** `s.trim()`: both runs of trim characters removed. */
  function Trim(s: string): string {
    TrimEnd(TrimStart(s))
  }

  /** The trimmed string is a slice of `s` that neither starts nor ends with
      a trim character; it is empty exactly when `s` is all trim
      characters. */
  lemma TrimSpec(s: string)
    ensures var r := Trim(s);
      && (r == [] || (!IsTrimSpace(r[0]) && !IsTrimSpace(r[|r| - 1])))
      && (r == [] <==> forall i :: 0 <= i < |s| ==> IsTrimSpace(s[i]))
      && exists lo :: WindowAt(s, r, lo)
  {
    TrimStartSpec(s);
    TrimEndSpec(TrimStart(s));
    TrimSlices(s, TrimStart(s), Trim(s));
  }

  /** How the two halves of `Trim` compose: the result is a window of `s`,
      and when it is empty every character of `s` was a trim character. */
  lemma TrimSlices(s: string, a: string, r: string)
    requires |a| <= |s| && a == s[|s| - |a|..]
    requires forall i :: 0 <= i < |s| - |a| ==> IsTrimSpace(s[i])
    requires a == [] || !IsTrimSpace(a[0])
    requires |r| <= |a| && r == a[..|r|]
    requires forall i :: |r| <= i < |a| ==> IsTrimSpace(a[i])
    ensures WindowAt(s, r, |s| - |a|)
    ensures r == [] <==> forall i :: 0 <= i < |s| ==> IsTrimSpace(s[i])
  {
    var k := |s| - |a|;
    assert a == s[k..];
    assert r == a[..|r|];
    if r == [] {
      // `a` keeps no leading trim character, so an empty trailing trim
      // means `a` itself was empty.
      assert a == [];
    } else {
      assert r[0] == a[0] == s[k];
    }
  }

  /** Trimming twice is trimming once. */
  lemma TrimIdempotent(s: string)
    ensures Trim(Trim(s)) == Trim(s)
  {
    var t := Trim(s);
    TrimSpec(s);
    assert TrimStart(t) == t;
    assert TrimEnd(t) == t;
  }

  /** `c.toLowerCase()` on the ASCII capitals; every other character is
      left as it is. */
  function LowerChar(c: char): char {
    if 'A' <= c <= 'Z' then (c as int + 32) as char else c
  }

  /** `s.toLowerCase()` restricted to ASCII case mapping. */
  function ToLower(s: string): (r: string)
    ensures |r| == |s|
    ensures forall i :: 0 <= i < |s| ==> !('A' <= r[i] <= 'Z')
    ensures forall i :: 0 <= i < |s| && !('A' <= s[i] <= 'Z') ==> r[i] == s[i]
    ensures forall i :: 0 <= i < |s| && 'A' <= s[i] <= 'Z' ==> r[i] == (s[i] as int + 32) as char
  {
    seq(|s|, i requires 0 <= i < |s| => LowerChar(s[i]))
  }

  /** `s.startsWith(w)`. */
  predicate StartsWith(s: string, w: string) {
    |w| <= |s| && s[..|w|] == w
  }

  /** `w` occurs in `s` starting at index `i`. */
  predicate WindowAt(s: string, w: string, i: int) {
    0 <= i <= |s| - |w| && s[i..i + |w|] == w
  }

  /** `s.includes(w)`: some window of `s` equals `w`. */
  predicate Includes(s: string, w: string)
    ensures Includes(s, w) <==> exists i :: WindowAt(s, w, i)
    decreases |s|
  {
    if |w| > |s| then false
    else if StartsWith(s, w) then
      assert WindowAt(s, w, 0);
      true
    else
      var r := Includes(s[1..], w);
      assert forall i :: WindowAt(s[1..], w, i) <==> WindowAt(s, w, i + 1);
      assert !WindowAt(s, w, 0);
      assert forall i :: WindowAt(s, w, i) && i != 0 ==> WindowAt(s[1..], w, i - 1);
      r
  }

  /** JavaScript's `s || d` for a string `s`: the empty string is falsy. */
  function OrDefault(s: string, d: string): (r: string)
    ensures s != [] ==> r == s
    ensures s == [] ==> r == d
  {
    if s == [] then d else s
  }
}
