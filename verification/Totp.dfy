/** Time-based one-time codes (server/totp.go), over any keyed hash of twenty bytes. */
module Totp {
  import opened Common
  import opened Text
  import FileCrypt

  const STEP_SECONDS := 30
  const DIGITS := 6
  const SKEW := 1
  const HASH_BYTES := 20

  /** HMAC-SHA-1 under one secret: nothing is assumed of it but its length. */
  type Mac = m: Bytes -> Bytes | forall b :: |m(b)| == HASH_BYTES witness (b: Bytes) => seq(HASH_BYTES, _ => 0 as byte)

  /** The number of the window; the division truncates toward zero. */
  function Step(unix: int): int {
    if unix >= 0 then unix / STEP_SECONDS else -((-unix) / STEP_SECONDS)
  }

  /** Dynamic truncation, section 5.3 of RFC 4226: 31 bits at an offset the last byte names. */
  function Truncated(sum: Bytes): (v: nat)
    requires |sum| == HASH_BYTES
    ensures v < 0x8000_0000
  {
    var off := sum[HASH_BYTES - 1] as int % 16;
    (sum[off] as int % 128) * 0x100_0000 + sum[off + 1] as int * 0x1_0000 + sum[off + 2] as int * 0x100 + sum[off + 3] as int
  }

  /** For a clock past the epoch a window is the thirty seconds behind its number. */
  lemma StepIsWindow(unix: int)
    ensures unix >= 0 ==> 30 * Step(unix) <= unix < 30 * Step(unix) + 30
    ensures unix < 0 ==> 30 * Step(unix) - 30 < unix <= 30 * Step(unix)
  {}

  /** The clock never goes back to an earlier window. */
  lemma StepGrows(early: int, late: int)
    requires early <= late
    ensures Step(early) <= Step(late)
  {
    StepIsWindow(early);
    StepIsWindow(late);
  }

  /** The four bytes at the offset, read as a big-endian number without its highest bit. */
  lemma TruncatedIs(sum: Bytes, off: nat)
    requires |sum| == HASH_BYTES && off == sum[19] as int % 16
    ensures Truncated(sum) == FileCrypt.Value(sum[off..off + 4]) % 0x8000_0000
  {
    var w := sum[off..off + 4];
    assert w[..3][..2][..1][..0] == [];
    assert FileCrypt.Value(w[..3][..2][..1]) == w[0] as nat;
    assert FileCrypt.Value(w[..3][..2]) == 0x100 * w[0] as nat + w[1] as nat;
    assert FileCrypt.Value(w[..3]) == 0x1_0000 * w[0] as nat + 0x100 * w[1] as nat + w[2] as nat;
    assert FileCrypt.Value(w) == 0x100_0000 * w[0] as nat + 0x1_0000 * w[1] as nat + 0x100 * w[2] as nat + w[3] as nat;
    TopBitGoes(w[0] as int, 0x1_0000 * w[1] as nat + 0x100 * w[2] as nat + w[3] as nat);
  }

  lemma TopBitGoes(top: int, rest: nat)
    requires 0 <= top < 256 && rest < 0x100_0000
    ensures (0x100_0000 * top + rest) % 0x8000_0000 == 0x100_0000 * (top % 128) + rest
  {}

  /** The example of section 5.4 of RFC 4226. */
  lemma ExampleOfTheRfc()
    ensures Truncated([0x1f, 0x86, 0x98, 0x69, 0x0e, 0x02, 0xca, 0x16, 0x61, 0x85, 0x50, 0xef, 0x7f, 0x19, 0xda, 0x8e,
                       0x94, 0x5b, 0x55, 0x5a]) == 0x50ef7f19
    ensures Padded(0x50ef7f19 % 1_000_000, DIGITS) == "872921"
  {
    assert 0x50ef7f19 % 1_000_000 == 872921;
    OneMoreDigit(0, 0);
    OneMoreDigit(8, 1);
    OneMoreDigit(87, 2);
    OneMoreDigit(872, 3);
    OneMoreDigit(8729, 4);
    OneMoreDigit(87292, 5);
    hide Padded;
    OneMoreDigit(872921, 6);
  }

  lemma OneMoreDigit(v: nat, width: nat)
    ensures Padded(v, width) == if width == 0 then "" else Padded(v / 10, width - 1) + ['0' + (v % 10) as char]
  {}

  function Pow10(n: nat): (r: nat)
    ensures r > 0
  {
    if n == 0 then 1 else 10 * Pow10(n - 1)
  }

  /** Decimal notation with leading zeros, `width` digits at least. */
  function Padded(v: nat, width: nat): string {
    if width == 0 then "" else Padded(v / 10, width - 1) + ['0' + (v % 10) as char]
  }

  lemma {:induction false} PaddedSpells(v: nat, width: nat)
    requires v < Pow10(width)
    ensures |Padded(v, width)| == width && AllDigits(Padded(v, width)) && DigitsValue(Padded(v, width)) == v
  {
    if width > 0 {
      PaddedSpells(v / 10, width - 1);
      var s := Padded(v, width);
      assert s[..|s| - 1] == Padded(v / 10, width - 1);
    }
  }

  /** The eight bytes of the window number, big-endian, as its two's complement. */
  function Counter(step: int): Bytes {
    FileCrypt.Digits(step % FileCrypt.TWO_64, 8)
  }

  /** Eight bytes that spell the number modulo 2^64, as section 5.1 of RFC 4226 has it. */
  lemma CounterSpells(step: int)
    ensures |Counter(step)| == 8 && FileCrypt.Value(Counter(step)) == step % FileCrypt.TWO_64
  {
    FileCrypt.PowersOf256();
    FileCrypt.DigitsSpellValue(step % FileCrypt.TWO_64, 8);
  }

  /** The code of a window. */
  function CodeOf(mac: Mac, step: int): string {
    Padded(Truncated(mac(Counter(step))) % 1_000_000, DIGITS)
  }

  lemma MillionIsPow10()
    ensures Pow10(DIGITS) == 1_000_000
  {
    assert Pow10(3) == 1000;
    assert Pow10(6) == 10 * Pow10(5) == 100 * Pow10(4) == 1000 * Pow10(3);
  }

  /** A code has six digits, and two windows share a code exactly if their truncated hashes agree in the last six. */
  lemma CodesSpellTheHash(mac: Mac, a: int, b: int)
    ensures |CodeOf(mac, a)| == DIGITS && AllDigits(CodeOf(mac, a))
    ensures DigitsValue(CodeOf(mac, a)) == Truncated(mac(Counter(a))) % 1_000_000
    ensures CodeOf(mac, a) == CodeOf(mac, b)
       <==> Truncated(mac(Counter(a))) % 1_000_000 == Truncated(mac(Counter(b))) % 1_000_000
  {
    MillionIsPow10();
    PaddedSpells(Truncated(mac(Counter(a))) % 1_000_000, DIGITS);
    PaddedSpells(Truncated(mac(Counter(b))) % 1_000_000, DIGITS);
  }

  /** totpCodeAt. */
  method CodeAt(mac: Mac, step: int) returns (code: string)
    ensures code == CodeOf(mac, step)
  {
    var buf := new byte[8];
    FileCrypt.PutUint64(buf, 0, step % FileCrypt.TWO_64);
    assert buf[0..8] == buf[..];
    CounterIs(buf[..], step);
    var sum := mac(buf[..]);
    var v := Truncated(sum);
    var modulus := 1;
    for i := 0 to DIGITS
      invariant modulus == Pow10(i)
    {
      modulus := modulus * 10;
    }
    MillionIsPow10();
    code := Padded(v % modulus, DIGITS);
  }

  lemma CounterIs(buf: Bytes, step: int)
    requires |buf| == 8 && FileCrypt.Value(buf) == step % FileCrypt.TWO_64
    ensures buf == Counter(step)
  {
    FileCrypt.PowersOf256();
    FileCrypt.DigitsSpellValue(step % FileCrypt.TWO_64, 8);
    FileCrypt.ValueInjective(buf, Counter(step));
  }

  function WithoutSpaces(s: string): string {
    if s == "" then "" else (if s[0] == ' ' then "" else [s[0]]) + WithoutSpaces(s[1..])
  }

  /** Spaces typed into a code do not matter, and nothing else is taken out. */
  lemma {:induction false} SpacesVanish(a: string, b: string)
    ensures WithoutSpaces(a + " " + b) == WithoutSpaces(a) + WithoutSpaces(b)
    ensures ' ' !in a ==> WithoutSpaces(a) == a
  {
    if a == "" {
      assert (a + " " + b)[1..] == b;
    } else {
      SpacesVanish(a[1..], b);
      assert (a + " " + b)[1..] == a[1..] + " " + b;
      assert a == [a[0]] + a[1..];
    }
  }

  /** A window that is accepted began at most a minute ago and begins in at most thirty seconds. */
  lemma AcceptedIsNear(mac: Mac, code: string, now: int, step: int)
    requires Matches(mac, code, now, step) && now >= 0
    ensures now - 60 < 30 * step <= now + 30
  {
    hide CodeOf, WithoutSpaces, TrimSpace;
    StepIsWindow(now);
  }

  /** The code is that of a window next to the current one. */
  predicate Matches(mac: Mac, code: string, now: int, step: int) {
    Step(now) - SKEW <= step <= Step(now) + SKEW && CodeOf(mac, step) == WithoutSpaces(TrimSpace(code))
  }

  /** The code of the current window, of the one before and of the one after are accepted as they are printed. */
  lemma NeighboursMatch(mac: Mac, now: int, step: int)
    requires Step(now) - 1 <= step <= Step(now) + 1
    ensures Matches(mac, CodeOf(mac, step), now, step)
  {
    var code := CodeOf(mac, step);
    CodesSpellTheHash(mac, step, step);
    hide CodeOf, Step, TrimSpace, WithoutSpaces;
    var i, j := TrimSpaceIs(code);
    assert forall k :: 0 <= k < |code| ==> IsDigit(code[k]) && !IsSpace(code[k]);
    assert !IsSpace(code[0]) && !IsSpace(code[|code| - 1]);
    assert i == 0 && j == |code| && code[0..|code|] == code;
    SpacesVanish(code, "");
  }

  /** totpVerify: the earliest window of the three that has this code; a secret that does not decode has none. */
  method Verify(secret: Option<Mac>, code: string, now: int) returns (window: Option<int>)
    ensures window.Some? <==> secret.Some? && exists step :: Matches(secret.value, code, now, step)
    ensures window.Some? ==> Matches(secret.value, code, now, window.value)
    ensures window.Some? && now >= 0 ==> now - 60 < 30 * window.value <= now + 30
    ensures window.Some? ==> forall step :: step < window.value ==> !Matches(secret.value, code, now, step)
  {
    hide CodeOf, Step, WithoutSpaces, TrimSpace;
    var clean := WithoutSpaces(TrimSpace(code));
    if |clean| != DIGITS {
      if secret.Some? {
        forall step
          ensures !Matches(secret.value, code, now, step)
        {
          CodesSpellTheHash(secret.value, step, step);
        }
      }
      return None;
    }
    var current := Step(now);
    var d := -SKEW;
    while d <= SKEW
      invariant -SKEW <= d <= SKEW + 1
      invariant secret.Some? ==> forall step :: step < current + d ==> !Matches(secret.value, code, now, step)
    {
      if secret.None? {
        return None;
      }
      var want := CodeAt(secret.value, current + d);
      if want == clean {
        assert Matches(secret.value, code, now, current + d);
        if now >= 0 {
          AcceptedIsNear(secret.value, code, now, current + d);
        }
        return Some(current + d);
      }
      d := d + 1;
    }
    window := None;
  }
}
