/** The surrogate token grammar, its matcher, and the prefixes a stream has to hold back. */
module TokenGrammar {
  import opened Text

  const ENTITY_WIDTH: nat := 64
  const TAG_HEX_LENGTH: nat := 32
  const VERSION: string := "v1"
  const MAX_TOKEN_LENGTH: nat := 1 + ENTITY_WIDTH + 1 + |VERSION| + 1 + TAG_HEX_LENGTH + 1

  predicate IsUpper(c: char) { 'A' <= c <= 'Z' }

  predicate IsEntityChar(c: char) { IsUpper(c) || '0' <= c <= '9' || c == '_' }

  predicate IsHex(c: char) { '0' <= c <= '9' || 'a' <= c <= 'f' }

  /** The language of `[A-Z][A-Z0-9_]*`. */
  predicate IsEntityName(s: string) {
    s != "" && IsUpper(s[0]) && forall k | 0 <= k < |s| :: IsEntityChar(s[k])
  }

  predicate AllHex(s: string) { forall k | 0 <= k < |s| :: IsHex(s[k]) }

  function TokenText(entity: string, tag: string): string {
    "<" + entity + ":v1:" + tag + ">"
  }

  predicate IsToken(t: string) {
    && 39 <= |t| <= MAX_TOKEN_LENGTH
    && t[0] == '<'
    && IsEntityName(t[1..|t| - 37])
    && t[|t| - 37..|t| - 33] == ":v1:"
    && AllHex(t[|t| - 33..|t| - 1])
    && t[|t| - 1] == '>'
  }

  /** IsToken is the language `<([A-Z][A-Z0-9_]{0,63}):(v1):([0-9a-f]{32})>`. */
  lemma TokenLanguage(t: string)
    ensures IsToken(t) <==>
      exists entity, tag ::
        && t == TokenText(entity, tag)
        && 1 <= |entity| <= 64 && IsUpper(entity[0]) && (forall c | c in entity :: IsEntityChar(c))
        && |tag| == 32 && forall c | c in tag :: IsHex(c)
  {
    if IsToken(t) {
      var entity, tag := t[1..|t| - 37], t[|t| - 33..|t| - 1];
      assert t == ["<"[0]] + entity + t[|t| - 37..|t| - 33] + tag + [t[|t| - 1]];
      assert t == TokenText(entity, tag);
    }
    if entity, tag :|
      && t == TokenText(entity, tag)
      && 1 <= |entity| <= 64 && IsUpper(entity[0]) && (forall c | c in entity :: IsEntityChar(c))
      && |tag| == 32 && forall c | c in tag :: IsHex(c) {
      TokenTextIsToken(entity, tag);
    }
  }

  /** The characters of the grammar, one by one. */
  lemma UpperExactly(c: char)
    ensures IsUpper(c) <==> c in "ABCDEFGHIJKLMNOPQRSTUVWXYZ"
  {
    assert IsUpper(c) ==> c == "ABCDEFGHIJKLMNOPQRSTUVWXYZ"[c as int - 65];
  }

  lemma DigitExactly(c: char)
    ensures c in "0123456789" <==> '0' <= c <= '9'
  {
    assert '0' <= c <= '9' ==> c == "0123456789"[c as int - 48];
  }

  lemma NameExactly(c: char)
    ensures IsEntityChar(c) <==> c in "ABCDEFGHIJKLMNOPQRSTUVWXYZ" || c in "0123456789" || c == '_'
    ensures IsHex(c) <==> c in "0123456789" || c in "abcdef"
  {
    UpperExactly(c);
    DigitExactly(c);
    hide IsUpper;
    assert 'a' <= c <= 'f' ==> c == "abcdef"[c as int - 97];
  }

  lemma TokenTextIsToken(entity: string, tag: string)
    requires IsEntityName(entity) && |entity| <= ENTITY_WIDTH
    requires |tag| == TAG_HEX_LENGTH && AllHex(tag)
    ensures IsToken(TokenText(entity, tag))
  {
    var t := TokenText(entity, tag);
    assert t[1..|t| - 37] == entity;
    assert t[|t| - 37..|t| - 33] == ":v1:";
    assert t[|t| - 33..|t| - 1] == tag;
  }

  /** Tokens carry their brackets at the two ends only. */
  lemma TokenBrackets(t: string, k: nat)
    requires IsToken(t) && k < |t|
    ensures t[k] == '<' <==> k == 0
    ensures t[k] == '>' <==> k == |t| - 1
  {
    var body, middle, tag := t[1..|t| - 37], t[|t| - 37..|t| - 33], t[|t| - 33..|t| - 1];
    if 1 <= k < |t| - 37 {
      assert t[k] == body[k - 1];
    } else if |t| - 37 <= k < |t| - 33 {
      assert t[k] == middle[k - (|t| - 37)];
    } else if |t| - 33 <= k < |t| - 1 {
      assert t[k] == tag[k - (|t| - 33)];
    }
  }

  /** Position of the first `c`, or |s| when there is none. */
  function FirstIndex(s: string, c: char): (i: nat)
    ensures i <= |s|
    ensures i < |s| ==> s[i] == c
    ensures forall k | 0 <= k < i :: s[k] != c
  {
    if s == "" || s[0] == c then 0 else 1 + FirstIndex(s[1..], c)
  }

  /** Length of the token that `s` starts with, or 0: what the compiled pattern matches at one position. */
  function TokenPrefix(s: string): (n: nat)
    ensures n <= |s|
    ensures n > 0 ==> IsToken(s[..n])
    ensures n == 0 ==> forall j | 0 <= j <= |s| :: !IsToken(s[..j])
  {
    var close := FirstIndex(s, '>');
    if close < |s| && IsToken(s[..close + 1]) then close + 1
    else
      assert forall j | 0 <= j <= |s| :: !IsToken(s[..j]) by {
        forall j | 0 <= j <= |s| && IsToken(s[..j])
          ensures false
        {
          TokenBrackets(s[..j], j - 1);
          assert s[close] == s[..j][close];
          TokenBrackets(s[..j], close);
        }
      }
      0
  }

  /** At one position at most one token can start. */
  lemma TokenPrefixUnique(s: string, j: nat)
    requires j <= |s| && IsToken(s[..j])
    ensures TokenPrefix(s) == j
  {
    var n := TokenPrefix(s);
    var shorter, longer := if n < j then s[..n] else s[..j], if n < j then s[..j] else s[..n];
    if n != j {
      TokenBrackets(shorter, |shorter| - 1);
      assert longer[|shorter| - 1] == shorter[|shorter| - 1];
      TokenBrackets(longer, |shorter| - 1);
    }
  }

  /** Whether `value` could still grow into a token, branch by branch as the stream asks it. */
  predicate PossiblePrefix(value: string) {
    if value == "" || value[0] != '<' || |value| >= MAX_TOKEN_LENGTH then false
    else
      var body := value[1..];
      var colon := FirstIndex(body, ':');
      if colon == |body| then
        body == "" || (IsEntityName(body) && |body| <= ENTITY_WIDTH)
      else
        var entity, rest := body[..colon], body[colon + 1..];
        if !IsEntityName(entity) || |entity| > ENTITY_WIDTH then false
        else
          var second := FirstIndex(rest, ':');
          if second == |rest| then rest <= VERSION
          else
            var version, tag := rest[..second], rest[second + 1..];
            version == VERSION && |tag| <= TAG_HEX_LENGTH && AllHex(tag)
  }

  function Zeros(n: nat): (s: string)
    ensures |s| == n && AllHex(s)
  {
    seq(n, _ => '0')
  }

  /** The text is held back exactly when it is a nonempty proper prefix of some token. */
  lemma PossiblePrefixExact(value: string)
    ensures PossiblePrefix(value) <==> value != "" && exists t :: IsToken(t) && value < t
  {
    if PossiblePrefix(value) {
      var t := Completion(value);
    }
    if value != "" && exists t :: IsToken(t) && value < t {
      var t :| IsToken(t) && value < t;
      ProperPrefixIsPossible(t, |value|);
      assert t[..|value|] == value;
    }
  }

  lemma Completion(value: string) returns (t: string)
    requires PossiblePrefix(value)
    ensures IsToken(t) && value < t
  {
    hide IsToken, IsEntityName, AllHex;
    var body := value[1..];
    var colon := FirstIndex(body, ':');
    if colon == |body| {
      t := CompleteEntity(value);
    } else {
      var rest := body[colon + 1..];
      var second := FirstIndex(rest, ':');
      t := CompleteTail(value, body[..colon], rest,
                        if second == |rest| then "" else rest[second + 1..]);
    }
  }

  lemma CompleteEntity(value: string) returns (t: string)
    requires value != "" && value[0] == '<'
    requires value[1..] == "" || (IsEntityName(value[1..]) && |value[1..]| <= ENTITY_WIDTH)
    ensures IsToken(t) && value < t
  {
    var entity := if value[1..] == "" then "A" else value[1..];
    t := TokenText(entity, Zeros(32));
    TokenTextIsToken(entity, Zeros(32));
    assert t[..|value|] == value;
  }

  lemma CompleteTail(value: string, entity: string, rest: string, tag: string) returns (t: string)
    requires |value| == |entity| + 2 + |rest| && value[0] == '<'
    requires value[1..|entity| + 1] == entity && value[|entity| + 1] == ':'
    requires value[|entity| + 2..] == rest
    requires IsEntityName(entity) && |entity| <= ENTITY_WIDTH
    requires |tag| <= TAG_HEX_LENGTH && AllHex(tag)
    requires (rest <= VERSION && tag == "") || (|rest| >= 3 && rest[..2] == VERSION && rest[2] == ':' && rest[3..] == tag)
    ensures IsToken(t) && value < t
  {
    var full := tag + Zeros(32 - |tag|);
    t := TokenText(entity, full);
    TokenTextIsToken(entity, full);
    var e := |entity|;
    assert t[e + 1..e + 5] == ":v1:" && t[e + 5..e + 37] == full;
    forall k | 0 <= k < |value|
      ensures value[k] == t[k]
    {
      if 1 <= k < e + 1 {
        assert value[k] == value[1..e + 1][k - 1];
      } else if k >= e + 2 {
        assert value[k] == rest[k - e - 2];
        if |rest| >= 3 && k >= e + 5 {
          assert rest[k - e - 2] == rest[3..][k - e - 5];
          assert t[k] == t[e + 5..e + 37][k - e - 5];
        } else if k < e + 4 {
          assert t[k] == t[e + 1..e + 5][k - e - 1];
          assert rest[k - e - 2] == VERSION[k - e - 2] by {
            if |rest| >= 3 { assert rest[..2][k - e - 2] == rest[k - e - 2]; }
          }
        }
      }
    }
    assert t[..|value|] == value;
  }

  lemma FirstIndexIs(s: string, c: char, i: nat)
    requires i <= |s| && (i < |s| ==> s[i] == c)
    requires forall k | 0 <= k < i :: s[k] != c
    ensures FirstIndex(s, c) == i
  {
  }

  lemma ProperPrefixIsPossible(t: string, n: nat)
    requires IsToken(t) && 0 < n < |t|
    ensures PossiblePrefix(t[..n])
  {
    var p := |t| - 37;
    var entity, middle, tag := t[1..p], t[p..p + 4], t[p + 4..|t| - 1];
    assert t == "<" + entity + middle + tag + ">";
    var inner := entity + middle + tag;
    assert t[..n][1..] == inner[..n - 1];
    hide IsToken, IsEntityName, AllHex, PossiblePrefix;
    InnerPrefix(t[..n], entity, tag, n - 1);
  }

  lemma InnerPrefix(value: string, entity: string, tag: string, n: nat)
    requires IsEntityName(entity) && |entity| <= ENTITY_WIDTH && |tag| <= TAG_HEX_LENGTH && AllHex(tag)
    requires n <= |entity| + 4 + |tag|
    requires value != "" && value[0] == '<' && value[1..] == (entity + ":v1:" + tag)[..n]
    ensures PossiblePrefix(value)
  {
    var e := |entity|;
    var inner := entity + ":v1:" + tag;
    hide IsEntityName, PossiblePrefix;
    if n <= e {
      assert inner[..n] == entity[..n];
      PrefixInEntity(value, entity);
    } else if n <= e + 3 {
      assert inner[..n] == entity + ":" + VERSION[..n - e - 1];
      PrefixInVersion(value, entity, n - e - 1);
    } else {
      var part := tag[..n - e - 4];
      assert inner[..n] == entity + ":v1:" + part;
      PrefixInTag(value, entity, part);
    }
  }

  lemma PrefixInEntity(value: string, entity: string)
    requires IsEntityName(entity) && |entity| <= ENTITY_WIDTH
    requires 0 < |value| <= |entity| + 1 && value[0] == '<' && value[1..] == entity[..|value| - 1]
    ensures PossiblePrefix(value)
  {
    FirstIndexIs(value[1..], ':', |value| - 1);
  }

  lemma PrefixInVersion(value: string, entity: string, n: nat)
    requires IsEntityName(entity) && |entity| <= ENTITY_WIDTH && n <= |VERSION|
    requires value != "" && value[0] == '<' && value[1..] == entity + ":" + VERSION[..n]
    ensures PossiblePrefix(value)
  {
    var body := value[1..];
    FirstIndexIs(body, ':', |entity|);
    assert body[..|entity|] == entity && body[|entity| + 1..] == VERSION[..n];
    FirstIndexIs(VERSION[..n], ':', n);
  }

  lemma PrefixInTag(value: string, entity: string, tag: string)
    requires IsEntityName(entity) && |entity| <= ENTITY_WIDTH && |tag| <= TAG_HEX_LENGTH && AllHex(tag)
    requires value != "" && value[0] == '<' && value[1..] == entity + ":v1:" + tag
    ensures PossiblePrefix(value)
  {
    var body := value[1..];
    FirstIndexIs(body, ':', |entity|);
    var rest := body[|entity| + 1..];
    assert body[..|entity|] == entity && rest == "v1:" + tag;
    FirstIndexIs(rest, ':', 2);
    assert rest[..2] == VERSION && rest[3..] == tag;
  }

  /** So a held suffix is always shorter than the longest token. */
  lemma HeldSuffixBounded(value: string)
    requires PossiblePrefix(value)
    ensures 0 < |value| < MAX_TOKEN_LENGTH && value[0] == '<'
    ensures forall k | 1 <= k < |value| :: value[k] != '<'
  {
    var t := Completion(value);
    forall k | 1 <= k < |value|
      ensures value[k] != '<'
    {
      TokenBrackets(t, k);
    }
  }

  /** A bracket after the first character, or a prefix that is ruled out, rules the text out. */
  lemma InteriorBracket(value: string, k: nat)
    requires 1 <= k < |value| && value[k] == '<'
    ensures !PossiblePrefix(value)
  {
    hide PossiblePrefix;
    if PossiblePrefix(value) {
      HeldSuffixBounded(value);
    }
  }

  lemma PossiblePrefixClosed(value: string, n: nat)
    requires 0 < n <= |value| && !PossiblePrefix(value[..n])
    ensures !PossiblePrefix(value)
  {
    hide IsToken, PossiblePrefix;
    PossiblePrefixExact(value);
    PossiblePrefixExact(value[..n]);
    forall t | IsToken(t) && value < t
      ensures value[..n] < t
    {
    }
  }
}
