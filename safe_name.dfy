/**
 * The file-name sanitiser `safeName` of clone.js: every UTF-16 code unit outside
 * `[A-Za-z0-9_.-]` is replaced by `_`, and the result is cut to 200 code units.
 * The regular expression (no `u` flag) and `slice` both see UTF-16 code units, so
 * a string is given here as its code units, one `char` each. A surrogate unit is
 * written as any stand-in `char` outside the safe set; all of them become `_`.
 */
module SafeNames {

  /** The longest name `safeName` returns. */
  const MaxNameLength: nat := 200

  /** The code units the character class `[a-z0-9_.-]` with the `i` flag matches.
      Without the `u` flag case folding never maps a non-ASCII unit onto ASCII,
      so the class is exactly these 65 units. */
  predicate IsSafeChar(c: char) {
    ('a' <= c <= 'z') || ('A' <= c <= 'Z') || ('0' <= c <= '9') || c == '_' || c == '.' || c == '-'
  }

  /** A string made of safe code units only. */
  predicate IsSafe(s: string) {
    forall i :: 0 <= i < |s| ==> IsSafeChar(s[i])
  }

  /** What the global replacement does to one code unit. */
  function Scrub(c: char): (d: char)
    ensures IsSafeChar(d)
    ensures IsSafeChar(c) ==> d == c
  {
    if IsSafeChar(c) then c else '_'
  }

  /** `u.replace(/[^a-z0-9_.-]/gi, '_')`: one output unit per input unit. */
  function Replace(u: string): (r: string)
    ensures |r| == |u|
    ensures forall i :: 0 <= i < |u| ==> r[i] == Scrub(u[i])
  {
    if u == [] then [] else [Scrub(u[0])] + Replace(u[1..])
  }

  function Min(a: nat, b: nat): nat {
    if a <= b then a else b
  }

  /** `safeName(u)`: the replacement followed by `.slice(0, 200)`. */
  function SafeName(u: string): (r: string)
    ensures |r| == Min(|u|, MaxNameLength)
    ensures IsSafe(r)
    ensures forall i :: 0 <= i < |r| ==> (IsSafeChar(u[i]) ==> r[i] == u[i]) && (!IsSafeChar(u[i]) ==> r[i] == '_')
  {
    var replaced := Replace(u);
    replaced[..Min(|u|, MaxNameLength)]
  }

  /** A string that is already safe and short enough is its own name. */
  lemma SafeNameFixesSafe(u: string)
    requires IsSafe(u) && |u| <= MaxNameLength
    ensures SafeName(u) == u
  {
    var r := SafeName(u);
    assert |r| == |u|;
    forall i | 0 <= i < |u| ensures r[i] == u[i] {
      assert IsSafeChar(u[i]);
    }
  }

  /** Sanitising twice is sanitising once. */
  lemma SafeNameIdempotent(u: string)
    ensures SafeName(SafeName(u)) == SafeName(u)
  {
    SafeNameFixesSafe(SafeName(u));
  }

  /** The name depends on the first 200 code units only: inputs that share them collide. */
  lemma SafeNameTruncates(u: string, v: string)
    requires |u| >= MaxNameLength && |v| >= MaxNameLength
    requires u[..MaxNameLength] == v[..MaxNameLength]
    ensures SafeName(u) == SafeName(v)
  {
    var a, b := SafeName(u), SafeName(v);
    forall i | 0 <= i < MaxNameLength ensures a[i] == b[i] {
      assert u[i] == u[..MaxNameLength][i] == v[..MaxNameLength][i] == v[i];
    }
  }
}
