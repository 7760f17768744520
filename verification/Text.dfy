/** Text operations the service relies on: trimming, and the order Go puts on strings.
    Case folding and query matching are not here: the modules that need them take them as
    function parameters, so their theorems hold for every choice. */
module Text {

  /** The characters `strings.TrimSpace` removes (`unicode.IsSpace`). */
  predicate IsSpace(c: char) {
    || c in {' ', '\t', '\n', '\r', '\U{000B}', '\U{000C}', '\U{0085}', '\U{00A0}', '\U{1680}'}
    || '\U{2000}' <= c <= '\U{200A}'
    || c in {'\U{2028}', '\U{2029}', '\U{202F}', '\U{205F}', '\U{3000}'}
  }

  /** `strings.TrimFunc`: drops the outer characters that satisfy `drop`. */
  function TrimFunc(s: string, drop: char -> bool): string {
    TrimRight(TrimLeft(s, drop), drop)
  }

  function TrimLeft(s: string, drop: char -> bool): string {
    if s == "" || !drop(s[0]) then s else TrimLeft(s[1..], drop)
  }

  function TrimRight(s: string, drop: char -> bool): string {
    if s == "" || !drop(s[|s| - 1]) then s else TrimRight(s[..|s| - 1], drop)
  }

  function TrimSpace(s: string): string {
    TrimFunc(s, IsSpace)
  }

  /** No outer character satisfies `drop`. */
  predicate Tight(s: string, drop: char -> bool) {
    s == "" || (!drop(s[0]) && !drop(s[|s| - 1]))
  }

  predicate Trimmed(s: string) {
    TrimSpace(s) == s
  }

  lemma {:induction false} TrimLeftHead(s: string, drop: char -> bool)
    ensures var t := TrimLeft(s, drop); t == "" || !drop(t[0])
    ensures |TrimLeft(s, drop)| <= |s|
  {
    if s != "" && drop(s[0]) {
      TrimLeftHead(s[1..], drop);
    }
  }

  lemma {:induction false} TrimRightEnds(s: string, drop: char -> bool)
    ensures var t := TrimRight(s, drop); t == "" || !drop(t[|t| - 1])
    ensures TrimRight(s, drop) <= s
  {
    if s != "" && drop(s[|s| - 1]) {
      TrimRightEnds(s[..|s| - 1], drop);
    }
  }

  /** Trimming fixes a string exactly when the string is tight, always yields a tight string,
      and never lengthens it. */
  lemma TrimFuncTight(s: string, drop: char -> bool)
    ensures Tight(TrimFunc(s, drop), drop)
    ensures TrimFunc(s, drop) == s <==> Tight(s, drop)
    ensures |TrimFunc(s, drop)| <= |s|
  {
    var t := TrimLeft(s, drop);
    TrimLeftHead(s, drop);
    TrimRightEnds(t, drop);
  }

  /** Trimming leaves nothing exactly when there is nothing to keep. */
  lemma TrimSpaceBlank(s: string)
    ensures TrimSpace(s) == "" <==> forall c | c in s :: IsSpace(c)
  {
    TrimLeftBlank(s);
    TrimLeftHead(s, IsSpace);
    TrimRightBlank(TrimLeft(s, IsSpace));
  }

  lemma {:induction false} TrimLeftBlank(s: string)
    ensures TrimLeft(s, IsSpace) == "" <==> forall c | c in s :: IsSpace(c)
  {
    if s != "" && IsSpace(s[0]) {
      TrimLeftBlank(s[1..]);
      assert s == [s[0]] + s[1..];
    }
  }

  lemma {:induction false} TrimRightBlank(s: string)
    ensures s != "" && !IsSpace(s[0]) ==> TrimRight(s, IsSpace) != ""
  {
    if |s| > 1 && IsSpace(s[|s| - 1]) {
      TrimRightBlank(s[..|s| - 1]);
    }
  }

  lemma TrimSpaceIdempotent(s: string)
    ensures TrimSpace(TrimSpace(s)) == TrimSpace(s)
  {
    TrimFuncTight(s, IsSpace);
    TrimFuncTight(TrimSpace(s), IsSpace);
  }

  /** Go's `<` on strings. */
  predicate Less(a: string, b: string) {
    |b| > 0 && (|a| == 0 || a[0] < b[0] || (a[0] == b[0] && Less(a[1..], b[1..])))
  }

  lemma {:induction false} LessIrreflexive(a: string)
    ensures !Less(a, a)
  {
    if a != "" {
      LessIrreflexive(a[1..]);
    }
  }

  lemma {:induction false} LessTotal(a: string, b: string)
    ensures a == b || Less(a, b) || Less(b, a)
  {
    if a != "" && b != "" && a[0] == b[0] {
      LessTotal(a[1..], b[1..]);
      assert a == [a[0]] + a[1..] && b == [b[0]] + b[1..];
    }
  }

  lemma {:induction false} LessTransitive(a: string, b: string, c: string)
    requires Less(a, b) && Less(b, c)
    ensures Less(a, c)
  {
    if a != "" && a[0] == b[0] == c[0] {
      LessTransitive(a[1..], b[1..], c[1..]);
    }
  }

  /** `Less` is a strict total order; stated for use where orders are built from it. */
  lemma LessIsStrictTotal()
    ensures forall a :: !Less(a, a)
    ensures forall a, b :: a == b || Less(a, b) || Less(b, a)
    ensures forall a, b, c :: Less(a, b) && Less(b, c) ==> Less(a, c)
  {
    forall a ensures !Less(a, a) { LessIrreflexive(a); }
    forall a, b ensures a == b || Less(a, b) || Less(b, a) { LessTotal(a, b); }
    forall a, b, c | Less(a, b) && Less(b, c) ensures Less(a, c) { LessTransitive(a, b, c); }
  }
}
