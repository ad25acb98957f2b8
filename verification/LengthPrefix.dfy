/** Serialising identities for a MAC or an AEAD: no two contexts share a message. */
module LengthPrefix {
  import opened Text

  type byte = b: int | 0 <= b < 256

  // ---------- UTF-8 ----------

  function EncodeChar(c: char): (bs: seq<byte>)
    ensures |bs| == Utf8Width(c)
  {
    var v := c as int;
    if v < 0x80 then [v]
    else if v < 0x800 then [0xC0 + v / 0x40, 0x80 + v % 0x40]
    else if v < 0x1_0000 then [0xE0 + v / 0x1000, 0x80 + v / 0x40 % 0x40, 0x80 + v % 0x40]
    else [0xF0 + v / 0x4_0000, 0x80 + v / 0x1000 % 0x40, 0x80 + v / 0x40 % 0x40, 0x80 + v % 0x40]
  }

  function Utf8(s: string): (bs: seq<byte>)
    ensures |bs| == Utf8Length(s)
  {
    if s == "" then [] else EncodeChar(s[0]) + Utf8(s[1..])
  }

  /** The first byte says how long a character's encoding is, and the bytes say which character it is. */
  lemma CharDecides(c: char, d: char, r: seq<byte>, t: seq<byte>)
    requires EncodeChar(c) + r == EncodeChar(d) + t
    ensures c == d && r == t
  {
    var x, y := EncodeChar(c), EncodeChar(d);
    assert (x + r)[0] == x[0] && (y + t)[0] == y[0];
    FirstByte(c);
    FirstByte(d);
    assert |x| == |y|;
    assert x == (x + r)[..|x|] && y == (y + t)[..|y|];
    assert r == (x + r)[|x|..] && t == (y + t)[|y|..];
    CharInjective(c, d);
  }

  lemma FirstByte(c: char)
    ensures var b := EncodeChar(c)[0];
            |EncodeChar(c)| == if b < 0x80 then 1 else if b < 0xE0 then 2 else if b < 0xF0 then 3 else 4
  {
  }

  function DecodeChar(bs: seq<int>): int {
    if |bs| == 1 then bs[0]
    else if |bs| == 2 then (bs[0] - 0xC0) * 0x40 + (bs[1] - 0x80)
    else if |bs| == 3 then (bs[0] - 0xE0) * 0x1000 + (bs[1] - 0x80) * 0x40 + (bs[2] - 0x80)
    else if |bs| == 4 then (bs[0] - 0xF0) * 0x4_0000 + (bs[1] - 0x80) * 0x1000 + (bs[2] - 0x80) * 0x40 + (bs[3] - 0x80)
    else 0
  }

  lemma SplitBits(v: nat)
    ensures v == v / 0x1000 * 0x1000 + v / 0x40 % 0x40 * 0x40 + v % 0x40
    ensures v / 0x1000 == v / 0x4_0000 * 0x40 + v / 0x1000 % 0x40
  {
    assert v / 0x40 / 0x40 == v / 0x1000;
    assert v / 0x1000 / 0x40 == v / 0x4_0000;
  }

  lemma DecodesBack(c: char)
    ensures DecodeChar(EncodeChar(c)) == c as int
  {
    SplitBits(c as int);
  }

  lemma CharInjective(c: char, d: char)
    requires EncodeChar(c) == EncodeChar(d)
    ensures c == d
  {
    hide EncodeChar, DecodeChar;
    DecodesBack(c);
    DecodesBack(d);
  }

  lemma {:induction false} Utf8Injective(s: string, t: string)
    requires Utf8(s) == Utf8(t)
    ensures s == t
  {
    hide EncodeChar;
    if s != "" && t != "" {
      CharDecides(s[0], t[0], Utf8(s[1..]), Utf8(t[1..]));
      Utf8Injective(s[1..], t[1..]);
      assert s == [s[0]] + s[1..] && t == [t[0]] + t[1..];
    }
  }

  // ---------- Decimal lengths ----------

  const COLON: byte := 58

  predicate IsDigit(b: byte) { 48 <= b <= 57 }

  function Decimal(n: nat): (ds: seq<byte>)
    ensures |ds| >= (if n < 10 then 1 else 2) && (n < 10 ==> |ds| == 1)
    ensures forall k | 0 <= k < |ds| :: IsDigit(ds[k])
  {
    if n < 10 then [48 + n] else Decimal(n / 10) + [48 + n % 10]
  }

  lemma {:induction false} DecimalInjective(m: nat, n: nat)
    requires Decimal(m) == Decimal(n)
    ensures m == n
  {
    var x, y := Decimal(m), Decimal(n);
    if m < 10 && n < 10 {
      assert x[0] == y[0];
    } else if m >= 10 && n >= 10 {
      assert x[|x| - 1] == y[|y| - 1];
      assert Decimal(m / 10) == x[..|x| - 1] && Decimal(n / 10) == y[..|y| - 1];
      DecimalInjective(m / 10, n / 10);
    }
  }

  /** A number followed by a colon ends where the first colon is. */
  lemma NumberDecides(m: nat, n: nat, r: seq<byte>, t: seq<byte>)
    requires Decimal(m) + [COLON] + r == Decimal(n) + [COLON] + t
    ensures m == n && r == t
  {
    hide Decimal;
    var x, y := Decimal(m), Decimal(n);
    var a, b := x + [COLON] + r, y + [COLON] + t;
    assert a[|x|] == COLON && b[|y|] == COLON;
    assert forall k | 0 <= k < |x| :: a[k] == x[k];
    assert forall k | 0 <= k < |y| :: b[k] == y[k];
    assert |x| == |y|;
    assert x == a[..|x|] && y == b[..|y|];
    assert r == a[|x| + 1..] && t == b[|y| + 1..];
    DecimalInjective(m, n);
  }

  // ---------- Length-prefixed parts ----------

  function Part(p: string): seq<byte> { Decimal(|Utf8(p)|) + [COLON] + Utf8(p) }

  /** Each part as its byte length, a colon and its bytes; parts joined by NUL. */
  function LengthPrefixed(parts: seq<string>): seq<byte> {
    if parts == [] then []
    else if |parts| == 1 then Part(parts[0])
    else Part(parts[0]) + [0] + LengthPrefixed(parts[1..])
  }

  lemma PartDecides(p: string, q: string, r: seq<byte>, t: seq<byte>)
    requires Part(p) + r == Part(q) + t
    ensures p == q && r == t
  {
    hide Decimal, Utf8;
    var x, y := Utf8(p), Utf8(q);
    assert Part(p) + r == Decimal(|x|) + [COLON] + (x + r);
    assert Part(q) + t == Decimal(|y|) + [COLON] + (y + t);
    NumberDecides(|x|, |y|, x + r, y + t);
    assert x == (x + r)[..|x|] && y == (y + t)[..|y|];
    assert r == (x + r)[|x|..] && t == (y + t)[|y|..];
    Utf8Injective(p, q);
  }

  /** What follows the first part. */
  function Tail(parts: seq<string>): seq<byte>
    requires parts != []
  {
    if |parts| == 1 then [] else [0] + LengthPrefixed(parts[1..])
  }

  lemma HeadAndTail(parts: seq<string>)
    requires parts != []
    ensures LengthPrefixed(parts) == Part(parts[0]) + Tail(parts)
  {
    hide Part;
  }

  /** Whatever the parts contain, colons and NULs included, and however many there are. */
  lemma {:induction false} LengthPrefixedInjective(a: seq<string>, b: seq<string>)
    requires LengthPrefixed(a) == LengthPrefixed(b)
    ensures a == b
  {
    hide Part, LengthPrefixed;
    PartNonempty(a);
    PartNonempty(b);
    if a != [] {
      HeadAndTail(a);
      HeadAndTail(b);
      PartDecides(a[0], b[0], Tail(a), Tail(b));
      assert a == [a[0]] + a[1..] && b == [b[0]] + b[1..];
      if |a| > 1 {
        assert Tail(a)[1..] == LengthPrefixed(a[1..]) && Tail(b)[1..] == LengthPrefixed(b[1..]);
        LengthPrefixedInjective(a[1..], b[1..]);
      }
    }
  }

  lemma PartNonempty(parts: seq<string>)
    ensures LengthPrefixed(parts) == [] <==> parts == []
  {
  }

  // ---------- The two messages ----------

  const HMAC_DOMAIN := "quiethours/token"
  const AAD_DOMAIN := "quiethours/vault"

  /** The message a token's tag is derived from. */
  function TagMessage(version: string, tenant: string, conversation: string, entityType: string, canonical: string): seq<byte> {
    LengthPrefixed([HMAC_DOMAIN, version, tenant, conversation, entityType, canonical])
  }

  lemma TagMessageInjective(v: string, t: string, c: string, e: string, n: string,
                            v': string, t': string, c': string, e': string, n': string)
    requires TagMessage(v, t, c, e, n) == TagMessage(v', t', c', e', n')
    ensures v == v' && t == t' && c == c' && e == e' && n == n'
  {
    hide LengthPrefixed;
    var a, b := [HMAC_DOMAIN, v, t, c, e, n], [HMAC_DOMAIN, v', t', c', e', n'];
    LengthPrefixedInjective(a, b);
    assert a[1] == b[1] && a[2] == b[2] && a[3] == b[3] && a[4] == b[4] && a[5] == b[5];
  }

  lemma Spelled(parts: seq<string>)
    requires parts != []
    ensures |parts| == 1 ==> LengthPrefixed(parts) == Part(parts[0])
    ensures |parts| > 1 ==> LengthPrefixed(parts) == Part(parts[0]) + [0] + LengthPrefixed(parts[1..])
  {
  }

  /** Bytes by their count, a colon, and themselves. */
  lemma PartSpelled(p: string)
    ensures Part(p) == Decimal(|Utf8(p)|) + [':' as int] + Utf8(p)
  {
    hide Decimal, Utf8;
  }

  /** The messages in full: what stands where, down to the separators. */
  lemma MessagesExactly(v: string, t: string, c: string, e: string, n: string, key: key_version, format: byte)
    ensures TagMessage(v, t, c, e, n)
            == Part("quiethours/token") + [0] + (Part(v) + [0] + (Part(t) + [0] + (Part(c) + [0] + (Part(e) + [0] + Part(n)))))
    ensures Aad(t, c, e, n, key, format)
            == (Part("quiethours/vault") + [0] + (Part(t) + [0] + (Part(c) + [0] + (Part(e) + [0] + Part(n)))))
               + [format, key / 256, key % 256]
  {
    hide Part;
    Spelled([n]);
    Spelled([e, n]);
    Spelled([c, e, n]);
    Spelled([t, c, e, n]);
    Spelled([v, t, c, e, n]);
    Spelled(["quiethours/token", v, t, c, e, n]);
    Spelled(["quiethours/vault", t, c, e, n]);
  }

  type key_version = v: int | 0 <= v < 0x1_0000

  /** One byte of format version and a big-endian two-byte key version. */
  function Header(format: byte, key: key_version): (h: seq<byte>)
    ensures |h| == 3
  {
    [format, key / 256, key % 256]
  }

  function Aad(tenant: string, conversation: string, token: string, tokenVersion: string, key: key_version, format: byte): seq<byte> {
    LengthPrefixed([AAD_DOMAIN, tenant, conversation, token, tokenVersion]) + Header(format, key)
  }

  /** A record is bound to tenant, conversation, token, token version, key version and format at once. */
  lemma AadInjective(t: string, c: string, k: string, v: string, key: key_version, f: byte,
                     t': string, c': string, k': string, v': string, key': key_version, f': byte)
    requires Aad(t, c, k, v, key, f) == Aad(t', c', k', v', key', f')
    ensures t == t' && c == c' && k == k' && v == v' && key == key' && f == f'
  {
    hide LengthPrefixed;
    var a, b := [AAD_DOMAIN, t, c, k, v], [AAD_DOMAIN, t', c', k', v'];
    var x, y := LengthPrefixed(a), LengthPrefixed(b);
    var h, g := Header(f, key), Header(f', key');
    assert x == (x + h)[..|x + h| - 3] && y == (y + g)[..|y + g| - 3];
    assert h == (x + h)[|x + h| - 3..] && g == (y + g)[|y + g| - 3..];
    LengthPrefixedInjective(a, b);
    assert a[1] == b[1] && a[2] == b[2] && a[3] == b[3] && a[4] == b[4];
    assert h[0] == g[0] && h[1] == g[1] && h[2] == g[2];
  }
}
