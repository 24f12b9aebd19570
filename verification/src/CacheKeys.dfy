/** The cache's key names: one namespace per generation, under a configured prefix. Key parts are joined with
    colons, as the key builder the cache calls does. */
module CacheKeys {

  function Digit(d: nat): char
    requires d < 10
  {
    ['0', '1', '2', '3', '4', '5', '6', '7', '8', '9'][d]
  }

  predicate IsDigit(c: char) { '0' <= c <= '9' }

  predicate AllDigits(s: string) {
    forall i :: 0 <= i < |s| ==> IsDigit(s[i])
  }

  /** `n` in decimal. */
  function Decimal(n: nat): (s: string)
    ensures s != [] && AllDigits(s)
  {
    if n < 10 then [Digit(n)] else Decimal(n / 10) + [Digit(n % 10)]
  }

  lemma DigitInjective(a: nat, b: nat)
    requires a < 10 && b < 10 && Digit(a) == Digit(b)
    ensures a == b
  {
  }

  lemma {:induction false} DecimalInjective(a: nat, b: nat)
    requires Decimal(a) == Decimal(b)
    ensures a == b
    decreases a
  {
    var s, t := Decimal(a), Decimal(b);
    assert s[|s| - 1] == t[|t| - 1];
    DigitInjective(a % 10, b % 10);
    if a >= 10 && b >= 10 {
      assert Decimal(a / 10) == s[..|s| - 1] && Decimal(b / 10) == t[..|t| - 1];
      DecimalInjective(a / 10, b / 10);
    }
  }

  const CACHE: string := "insights:"
  const GENERATIONS: string := "insights:g"

  function RemovePrefix(key: string, prefix: string): string {
    if prefix <= key then key[|prefix|..] else key
  }

  /** The counter's key. */
  function GenerationKey(prefix: string): string {
    prefix + "insights-generation"
  }

  function Namespace(prefix: string, generation: nat): string {
    prefix + GENERATIONS + Decimal(generation)
  }

  /** `versioned_key`: the key moved into the generation's namespace, with or without its old prefix. */
  function VersionedKey(prefix: string, key: string, generation: nat): string {
    Namespace(prefix, generation) + ":" + RemovePrefix(key, CACHE)
  }

  /** The number a decimal numeral stands for. */
  function Numeral(s: string): nat
    requires AllDigits(s)
  {
    if s == [] then 0 else 10 * Numeral(s[..|s| - 1]) + (s[|s| - 1] as int - '0' as int)
  }

  lemma {:induction false} DecimalReads(n: nat)
    ensures Numeral(Decimal(n)) == n
  {
    var s := Decimal(n);
    if n >= 10 {
      DecimalReads(n / 10);
      assert s[..|s| - 1] == Decimal(n / 10);
    } else {
      assert s[..|s| - 1] == [];
    }
  }

  /** With or without its old prefix a key goes to the same place: the generation, in decimal, before it. */
  lemma VersionedKeyIs(prefix: string, suffix: string, generation: nat) returns (digits: string)
    requires !("insights:" <= suffix)
    ensures AllDigits(digits) && Numeral(digits) == generation
    ensures VersionedKey(prefix, "insights:" + suffix, generation) == VersionedKey(prefix, suffix, generation)
         == prefix + "insights:g" + digits + ":" + suffix
  {
    digits := Decimal(generation);
    DecimalReads(generation);
    assert ("insights:" + suffix)[|CACHE|..] == suffix;
  }

  /** How many digits stand at the front. */
  function LeadingDigits(s: string): (n: nat)
    ensures n <= |s| && AllDigits(s[..n]) && (n < |s| ==> !IsDigit(s[n]))
  {
    if s == [] || !IsDigit(s[0]) then 0 else 1 + LeadingDigits(s[1..])
  }

  lemma {:induction false} LeadingDigitsOf(a: string, x: string)
    requires AllDigits(a)
    ensures LeadingDigits(a + ":" + x) == |a|
  {
    var s := a + ":" + x;
    if a != [] {
      LeadingDigitsOf(a[1..], x);
      assert s[1..] == a[1..] + ":" + x;
    }
  }

  /** Digits followed by a colon read back in only one way. */
  lemma DigitsThenColon(a: string, b: string, x: string, y: string)
    requires AllDigits(a) && AllDigits(b) && a + ":" + x == b + ":" + y
    ensures a == b && x == y
  {
    var s, t := a + ":" + x, b + ":" + y;
    LeadingDigitsOf(a, x);
    LeadingDigitsOf(b, y);
    assert a == s[..|a|] && b == t[..|a|];
    assert x == s[|a| + 1..] && y == t[|a| + 1..];
  }

  lemma SplitKey(prefix: string, key: string, generation: nat)
    ensures VersionedKey(prefix, key, generation) == prefix + GENERATIONS + (Decimal(generation) + ":" + RemovePrefix(key, CACHE))
  {
  }

  /** Keys of different generations never meet, nor do different keys of one generation. */
  lemma VersionedKeyInjective(prefix: string, key: string, generation: nat, key': string, generation': nat)
    requires VersionedKey(prefix, key, generation) == VersionedKey(prefix, key', generation')
    ensures generation == generation' && RemovePrefix(key, CACHE) == RemovePrefix(key', CACHE)
  {
    var head := prefix + GENERATIONS;
    var a, b := Decimal(generation) + ":" + RemovePrefix(key, CACHE), Decimal(generation') + ":" + RemovePrefix(key', CACHE);
    SplitKey(prefix, key, generation);
    SplitKey(prefix, key', generation');
    assert (head + a)[|head|..] == a && (head + b)[|head|..] == b;
    DigitsThenColon(Decimal(generation), Decimal(generation'), RemovePrefix(key, CACHE), RemovePrefix(key', CACHE));
    DecimalInjective(generation, generation');
  }

  // ---- The sweep ----

  /** `insights:g\d+:` matches at the front. */
  predicate LooksVersioned(s: string) {
    GENERATIONS <= s
    && (var rest := s[|GENERATIONS|..]; var n := LeadingDigits(rest); 0 < n < |rest| && rest[n] == ':')
  }

  /** `_is_versioned`: matched past the prefix. */
  predicate IsVersioned(prefix: string, key: string) {
    |prefix| <= |key| && LooksVersioned(key[|prefix|..])
  }

  /** A key the sweep after bumping to `generation` deletes when the scan returns it. */
  predicate Swept(prefix: string, generation: nat, key: string) {
    && prefix + GENERATIONS <= key
    && IsVersioned(prefix, key)
    && !(Namespace(prefix, generation) + ":" <= key)
  }

  lemma VersionedLooksVersioned(prefix: string, key: string, generation: nat)
    ensures prefix + GENERATIONS <= VersionedKey(prefix, key, generation)
    ensures IsVersioned(prefix, VersionedKey(prefix, key, generation))
  {
    var k, rest := VersionedKey(prefix, key, generation), Decimal(generation) + ":" + RemovePrefix(key, CACHE);
    SplitKey(prefix, key, generation);
    assert k == prefix + (GENERATIONS + rest) && k[|prefix|..] == GENERATIONS + rest;
    assert (GENERATIONS + rest)[|GENERATIONS|..] == rest;
    LeadingDigitsOf(Decimal(generation), RemovePrefix(key, CACHE));
  }

  /** The sweep deletes every key of every other generation, and none of the one it just created. */
  lemma SweepSparesOwn(prefix: string, key: string, generation: nat, current: nat)
    ensures Swept(prefix, current, VersionedKey(prefix, key, generation)) <==> generation != current
  {
    var k := VersionedKey(prefix, key, generation);
    VersionedLooksVersioned(prefix, key, generation);
    if Namespace(prefix, current) + ":" <= k {
      var rest := k[|Namespace(prefix, current) + ":"|..];
      var head := prefix + GENERATIONS;
      SplitKey(prefix, key, generation);
      assert k == head + (Decimal(current) + ":" + rest);
      assert k[|head|..] == Decimal(current) + ":" + rest;
      assert k[|head|..] == Decimal(generation) + ":" + RemovePrefix(key, CACHE);
      DigitsThenColon(Decimal(current), Decimal(generation), rest, RemovePrefix(key, CACHE));
      DecimalInjective(current, generation);
    }
  }

  /** What the sweep deletes has the cache's own shape; so it never deletes the counter or another service's
      key, even one that the scan's wider pattern returns. */
  lemma SweptShape(prefix: string, generation: nat, key: string)
    requires Swept(prefix, generation, key)
    ensures exists digits, rest :: digits != [] && AllDigits(digits) && key == prefix + GENERATIONS + digits + ":" + rest
    ensures key != GenerationKey(prefix)
  {
    var s := key[|prefix|..];
    var tail := s[|GENERATIONS|..];
    var n := LeadingDigits(tail);
    assert prefix <= prefix + GENERATIONS;
    assert key[..|prefix|] == prefix && s[..|GENERATIONS|] == GENERATIONS;
    assert tail == tail[..n] + ":" + tail[n + 1..];
    assert key == prefix + GENERATIONS + tail[..n] + ":" + tail[n + 1..];
    var counter := "insights-generation";
    assert counter[8] == '-';
    assert GENERATIONS[8] == ':' && s[8] == GENERATIONS[8];
    assert GenerationKey(prefix)[|prefix|..] == "insights-generation";
  }

  /** The colon that ends the namespace is needed: without it generation 5 would also spare generation 55. */
  lemma ColonNeeded(prefix: string, key: string)
    ensures Namespace(prefix, 5) <= VersionedKey(prefix, key, 55)
    ensures !(Namespace(prefix, 5) + ":" <= VersionedKey(prefix, key, 55))
  {
    var k := VersionedKey(prefix, key, 55);
    assert Decimal(5) == "5" && Decimal(55) == Decimal(5) + [Digit(5)];
    assert k == Namespace(prefix, 5) + "5:" + RemovePrefix(key, CACHE);
    var own := Namespace(prefix, 5) + ":";
    assert k[|own| - 1] == '5' && own[|own| - 1] == ':';
  }
}
