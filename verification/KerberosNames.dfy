/** File names in the Kerberos cache directory (pkg/smb/nodeserver.go:641-653, 727): the per-volume cache file named
    by base64 (section 4 of RFC 4648) with '/' and '+' replaced, the per-uid link, and its temporary name. */
module KerberosNames {
  import opened Numerals

  type Byte = b: nat | b < 256

  /** The alphabet of section 4 of RFC 4648. */
  function Base64Char(i: nat): char
    requires i < 64
  {
    if i < 26 then ('A' as int + i) as char
    else if i < 52 then ('a' as int + (i - 26)) as char
    else if i < 62 then ('0' as int + (i - 52)) as char
    else if i == 62 then '+'
    else '/'
  }

  /** base64.StdEncoding.EncodeToString */
  function Encode(b: seq<Byte>): string {
    if b == [] then ""
    else if |b| == 1 then [Base64Char(b[0] / 4), Base64Char(b[0] % 4 * 16), '=', '=']
    else if |b| == 2 then
      [Base64Char(b[0] / 4), Base64Char(b[0] % 4 * 16 + b[1] / 16), Base64Char(b[1] % 16 * 4), '=']
    else
      [Base64Char(b[0] / 4), Base64Char(b[0] % 4 * 16 + b[1] / 16), Base64Char(b[1] % 16 * 4 + b[2] / 64),
       Base64Char(b[2] % 64)] + Encode(b[3..])
  }

  /** strings.ReplaceAll for single characters. */
  function ReplaceChar(s: string, old': char, new': char): (r: string)
    ensures |r| == |s| && forall i :: 0 <= i < |s| ==> r[i] == if s[i] == old' then new' else s[i]
  {
    if s == "" then "" else [if s[0] == old' then new' else s[0]] + ReplaceChar(s[1..], old', new')
  }

  /** volumeKerberosCacheName */
  function CacheName(volumeId: seq<Byte>): string {
    ReplaceChar(ReplaceChar(Encode(volumeId), '/', '-'), '+', '_')
  }

  // ---------------------------------------------------------------- reading a name back

  function SafeChar(c: char): char {
    if c == '/' then '-' else if c == '+' then '_' else c
  }

  /** The six bits a name character stands for. */
  function Sextet(c: char): (i: nat)
    ensures i < 64
  {
    if 'A' <= c <= 'Z' then c as int - 'A' as int
    else if 'a' <= c <= 'z' then c as int - 'a' as int + 26
    else if '0' <= c <= '9' then c as int - '0' as int + 52
    else if c == '_' then 62
    else 63
  }

  function Bytes(w: nat, x: nat, y: nat, z: nat): (b: seq<Byte>)
    requires w < 64 && x < 64 && y < 64 && z < 64
  {
    [w * 4 + x / 16, x % 16 * 16 + y / 4, y % 4 * 64 + z]
  }

  /** Recovers the volume ID a cache file belongs to. */
  function VolumeOf(name: string): seq<Byte> {
    if |name| < 4 then []
    else
      var group := Bytes(Sextet(name[0]), Sextet(name[1]), Sextet(name[2]), Sextet(name[3]));
      if name[2] == '=' then group[..1]
      else if name[3] == '=' then group[..2]
      else group + VolumeOf(name[4..])
  }

  lemma SextetOfSafe(i: nat)
    requires i < 64
    ensures Sextet(SafeChar(Base64Char(i))) == i && SafeChar(Base64Char(i)) != '=' && SafeChar(Base64Char(i)) != '/'
  {
  }

  lemma CacheNameAt(v: seq<Byte>)
    ensures |CacheName(v)| == |Encode(v)|
    ensures forall i :: 0 <= i < |Encode(v)| ==> CacheName(v)[i] == SafeChar(Encode(v)[i])
  {
  }

  lemma CacheNameTail(v: seq<Byte>)
    requires |v| >= 3
    ensures |CacheName(v)| >= 4 && CacheName(v)[4..] == CacheName(v[3..])
  {
    CacheNameAt(v);
    CacheNameAt(v[3..]);
    assert Encode(v)[4..] == Encode(v[3..]);
    assert forall i :: 0 <= i < |Encode(v[3..])| ==> CacheName(v)[4..][i] == SafeChar(Encode(v)[4..][i]);
  }

  lemma GroupOfThree(a: Byte, b: Byte, c: Byte)
    ensures Bytes(a / 4, a % 4 * 16 + b / 16, b % 16 * 4 + c / 64, c % 64) == [a, b, c]
  {
  }

  lemma OneByteBack(v: seq<Byte>)
    requires |v| == 1
    ensures VolumeOf(CacheName(v)) == v
  {
    CacheNameAt(v);
    SextetOfSafe(v[0] / 4);
    SextetOfSafe(v[0] % 4 * 16);
  }

  lemma TwoBytesBack(v: seq<Byte>)
    requires |v| == 2
    ensures VolumeOf(CacheName(v)) == v
  {
    CacheNameAt(v);
    SextetOfSafe(v[0] / 4);
    SextetOfSafe(v[0] % 4 * 16 + v[1] / 16);
    SextetOfSafe(v[1] % 16 * 4);
    GroupOfThree(v[0], v[1], 0);
  }

  lemma ThreeBytesBack(v: seq<Byte>)
    requires |v| >= 3
    ensures VolumeOf(CacheName(v)) == v[..3] + VolumeOf(CacheName(v[3..]))
  {
    CacheNameAt(v);
    CacheNameTail(v);
    SextetOfSafe(v[0] / 4);
    SextetOfSafe(v[0] % 4 * 16 + v[1] / 16);
    SextetOfSafe(v[1] % 16 * 4 + v[2] / 64);
    SextetOfSafe(v[2] % 64);
    GroupOfThree(v[0], v[1], v[2]);
    assert v[..3] == [v[0], v[1], v[2]];
  }

  /** Every volume ID can be read back from the name of its cache file. */
  lemma {:induction false} VolumeOfCacheName(v: seq<Byte>)
    ensures VolumeOf(CacheName(v)) == v
    decreases |v|
  {
    if |v| == 1 {
      OneByteBack(v);
    } else if |v| == 2 {
      TwoBytesBack(v);
    } else if |v| >= 3 {
      ThreeBytesBack(v);
      VolumeOfCacheName(v[3..]);
      assert v == v[..3] + v[3..];
    }
  }

  /** Different volumes never share a cache file. */
  lemma CacheNameInjective(v: seq<Byte>, w: seq<Byte>)
    requires CacheName(v) == CacheName(w)
    ensures v == w
  {
    VolumeOfCacheName(v);
    VolumeOfCacheName(w);
  }

  /** A cache name is a single path element. */
  lemma CacheNameSlashFree(v: seq<Byte>)
    ensures '/' !in CacheName(v)
  {
    CacheNameAt(v);
  }

  // ---------------------------------------------------------------- valid UTF-8 and the link names

  predicate Tail(b: Byte) { 0x80 <= b <= 0xBF }

  /** The length of the character `v` starts with, 0 if it starts none (section 4 of RFC 3629). */
  function CharLength(v: seq<Byte>): (n: nat)
    ensures n <= |v|
  {
    if |v| >= 1 && v[0] <= 0x7F then 1
    else if |v| >= 2 && 0xC2 <= v[0] <= 0xDF && Tail(v[1]) then 2
    else if |v| >= 3 && Tail(v[2]) &&
            ((v[0] == 0xE0 && 0xA0 <= v[1] <= 0xBF) || (0xE1 <= v[0] <= 0xEC && Tail(v[1])) ||
             (v[0] == 0xED && 0x80 <= v[1] <= 0x9F) || (0xEE <= v[0] <= 0xEF && Tail(v[1]))) then 3
    else if |v| >= 4 && Tail(v[2]) && Tail(v[3]) &&
            ((v[0] == 0xF0 && 0x90 <= v[1] <= 0xBF) || (0xF1 <= v[0] <= 0xF3 && Tail(v[1])) ||
             (v[0] == 0xF4 && 0x80 <= v[1] <= 0x8F)) then 4
    else 0
  }

  predicate Utf8(v: seq<Byte>)
    decreases |v|
  {
    v == [] || (CharLength(v) > 0 && Utf8(v[CharLength(v)..]))
  }

  const DefaultPrefix := "krb5cc_"

  /** getKrb5CcacheName */
  function LinkName(prefix: string, uid: int): string {
    prefix + Decimal(uid)
  }

  /** The temporary link: time and random number follow the link's own name. */
  function TempName(prefix: string, uid: int, suffix: string): string {
    LinkName(prefix, uid) + ".tmp." + suffix
  }

  /** No cache file of a valid volume ID has a name that starts with `prefix`. */
  ghost predicate Apart(prefix: string) {
    forall v :: Utf8(v) ==> !(prefix <= CacheName(v))
  }

  function Safe(i: nat): char
    requires i < 64
  {
    SafeChar(Base64Char(i))
  }

  lemma SafeInjective(i: nat, j: nat)
    requires i < 64 && j < 64 && Safe(i) == Safe(j)
    ensures i == j
  {
    SextetOfSafe(i);
    SextetOfSafe(j);
  }

  /** A full group of three bytes fills the first four characters. */
  lemma FirstGroup(v: seq<Byte>)
    requires |v| >= 3
    ensures |CacheName(v)| >= 4
    ensures var n := CacheName(v);
            && n[0] == Safe(v[0] / 4) && n[1] == Safe(v[0] % 4 * 16 + v[1] / 16)
            && n[2] == Safe(v[1] % 16 * 4 + v[2] / 64) && n[3] == Safe(v[2] % 64)
  {
    CacheNameAt(v);
  }

  lemma FirstFourAre(v: seq<Byte>, w: nat, x: nat, y: nat, z: nat)
    requires |v| >= 3 && w < 64 && x < 64 && y < 64 && z < 64
    ensures |CacheName(v)| >= 4
    ensures CacheName(v)[..4] == [Safe(w), Safe(x), Safe(y), Safe(z)] <==>
            [v[0], v[1], v[2]] == Bytes(w, x, y, z)
  {
    FirstGroup(v);
    var n := CacheName(v);
    var a, b, c, d := v[0] / 4, v[0] % 4 * 16 + v[1] / 16, v[1] % 16 * 4 + v[2] / 64, v[2] % 64;
    GroupOfThree(v[0], v[1], v[2]);
    if n[..4] == [Safe(w), Safe(x), Safe(y), Safe(z)] {
      assert n[0] == n[..4][0] && n[1] == n[..4][1] && n[2] == n[..4][2] && n[3] == n[..4][3];
      SafeInjective(a, w);
      SafeInjective(b, x);
      SafeInjective(c, y);
      SafeInjective(d, z);
    }
    if [v[0], v[1], v[2]] == Bytes(w, x, y, z) {
      SextetsOfBytes(w, x, y, z);
    }
  }

  lemma SextetsOfBytes(w: nat, x: nat, y: nat, z: nat)
    requires w < 64 && x < 64 && y < 64 && z < 64
    ensures var b := Bytes(w, x, y, z);
            b[0] / 4 == w && b[0] % 4 * 16 + b[1] / 16 == x && b[1] % 16 * 4 + b[2] / 64 == y && b[2] % 64 == z
  {
  }

  /** Three characters that end in an odd pair of bits need three bytes. */
  lemma ThreeCharsNeedThreeBytes(v: seq<Byte>)
    requires |CacheName(v)| >= 3 && CacheName(v)[2] == '_'
    ensures |v| >= 3
  {
    CacheNameAt(v);
    if |v| == 2 {
      assert CacheName(v)[2] == Safe(v[1] % 16 * 4);
      SextetOfSafe(v[1] % 16 * 4);
    }
  }

  lemma FirstFourNeedThreeBytes(v: seq<Byte>)
    requires |CacheName(v)| >= 4 && CacheName(v)[3] != '='
    ensures |v| >= 3
  {
    CacheNameAt(v);
  }

  predicate StartsWithKrb5(v: seq<Byte>) {
    |v| >= 3 && [v[0], v[1], v[2]] == [0x92, 0xB6, 0xF9]
  }

  predicate StartsWithCc(v: seq<Byte>) {
    |v| >= 3 && v[0] == 0x71 && v[1] == 0xCF && 0x80 <= v[2] <= 0xBF
  }

  lemma Krb5Iff(v: seq<Byte>)
    ensures ['k', 'r', 'b', '5'] <= CacheName(v) <==> StartsWithKrb5(v)
  {
    var n := CacheName(v);
    if ['k', 'r', 'b', '5'] <= n {
      assert n[3] == '5';
      FirstFourNeedThreeBytes(v);
    }
    if |v| >= 3 {
      FirstFourAre(v, 36, 43, 27, 57);
      assert Safe(36) == 'k' && Safe(43) == 'r' && Safe(27) == 'b' && Safe(57) == '5';
      assert Bytes(36, 43, 27, 57) == [0x92, 0xB6, 0xF9];
      assert n == n[..4] + n[4..];
    }
  }

  lemma CcIff(v: seq<Byte>)
    ensures ['c', 'c', '_'] <= CacheName(v) <==> StartsWithCc(v)
  {
    var n := CacheName(v);
    if ['c', 'c', '_'] <= n {
      assert n[2] == '_';
      ThreeCharsNeedThreeBytes(v);
    }
    if |v| >= 3 {
      var z := v[2] % 64;
      FirstGroup(v);
      FirstFourAre(v, 28, 28, 62, z);
      assert Safe(28) == 'c' && Safe(62) == '_';
      assert Bytes(28, 28, 62, z) == [0x71, 0xCF, 0x80 + z];
      assert n[..4] == [n[0], n[1], n[2], n[3]] && n[3] == Safe(z);
      assert ['c', 'c', '_'] <= n <==> n[0] == 'c' && n[1] == 'c' && n[2] == '_';
    }
  }

  /** The IDs whose cache file is named like a link of the default prefix are exactly those that start with five
      certain bytes and a continuation byte. */
  lemma DefaultPrefixIff(v: seq<Byte>)
    ensures DefaultPrefix <= CacheName(v) <==> StartsWithKrb5(v) && StartsWithCc(v[3..])
  {
    var n := CacheName(v);
    Krb5Iff(v);
    assert DefaultPrefix == ['k', 'r', 'b', '5'] + ['c', 'c', '_'];
    PrefixInTwo(['k', 'r', 'b', '5'], ['c', 'c', '_'], n);
    if StartsWithKrb5(v) {
      CacheNameTail(v);
      CcIff(v[3..]);
    }
  }

  lemma PrefixInTwo(a: string, b: string, n: string)
    ensures a + b <= n <==> a <= n && b <= n[|a|..]
  {
    if a + b <= n {
      assert a == n[..|a|] && (a + b)[|a|..] == b;
      assert forall i :: 0 <= i < |b| ==> n[|a|..][i] == (a + b)[|a| + i];
    }
    if a <= n && b <= n[|a|..] {
      assert forall i :: 0 <= i < |b| ==> n[|a| + i] == n[|a|..][i];
    }
  }

  /** With the default prefix no cache file can be mistaken for a link: the first of these bytes cannot lead
      a UTF-8 character. */
  lemma DefaultPrefixApart()
    ensures Apart(DefaultPrefix)
  {
    forall v | Utf8(v)
      ensures !(DefaultPrefix <= CacheName(v))
    {
      DefaultPrefixIff(v);
    }
  }

  // ---------------------------------------------------------------- names by what they stand for

  /** A directory entry's name: a volume's cache file, a uid's link, a temporary link, or anything else. */
  datatype Name =
    | CacheFile(volume: seq<Byte>)
    | UidLink(uid: int)
    | TempLink(uid: int, suffix: string)
    | Other(text: string)

  function Render(prefix: string, n: Name): string {
    match n
    case CacheFile(v) => CacheName(v)
    case UidLink(u) => LinkName(prefix, u)
    case TempLink(u, suffix) => TempName(prefix, u, suffix)
    case Other(text) => text
  }

  lemma SameLead(prefix: string, u: int, s: string, w: int, t: string)
    requires LinkName(prefix, u) + s == LinkName(prefix, w) + t
    requires (s == "" || s[0] == '.') && (t == "" || t[0] == '.')
    ensures u == w && s == t
  {
    var a, b := LinkName(prefix, u) + s, LinkName(prefix, w) + t;
    DecimalHasNoDot(u);
    DecimalHasNoDot(w);
    assert a[|prefix|..] == Decimal(u) + s && b[|prefix|..] == Decimal(w) + t;
    assert (Decimal(u) + s)[..|Decimal(u)|] == Decimal(u) && (Decimal(w) + t)[..|Decimal(w)|] == Decimal(w);
    assert (Decimal(u) + s)[|Decimal(u)|..] == s && (Decimal(w) + t)[|Decimal(w)|..] == t;
    DecimalInjective(u, w);
  }

  /** Names that stand for different things are different strings: cache files of different volumes, links of
      different uids, temporary links, and none of one kind equals one of another. */
  lemma RenderInjective(prefix: string, m: Name, n: Name)
    requires Apart(prefix) && !m.Other? && !n.Other?
    requires (m.CacheFile? ==> Utf8(m.volume)) && (n.CacheFile? ==> Utf8(n.volume))
    requires Render(prefix, m) == Render(prefix, n)
    ensures m == n
  {
    if m.CacheFile? && n.CacheFile? {
      CacheNameInjective(m.volume, n.volume);
    } else if !m.CacheFile? && !n.CacheFile? {
      var s := if m.TempLink? then ".tmp." + m.suffix else "";
      var t := if n.TempLink? then ".tmp." + n.suffix else "";
      assert Render(prefix, m) == LinkName(prefix, m.uid) + s by { RenderIs(prefix, m); }
      assert Render(prefix, n) == LinkName(prefix, n.uid) + t by { RenderIs(prefix, n); }
      SameLead(prefix, m.uid, s, n.uid, t);
      if m.TempLink? && n.TempLink? {
        assert s[5..] == m.suffix && t[5..] == n.suffix;
      }
    } else {
      RenderHasPrefix(prefix, if m.CacheFile? then n else m);
    }
  }

  lemma RenderIs(prefix: string, n: Name)
    requires n.UidLink? || n.TempLink?
    ensures Render(prefix, n) == LinkName(prefix, n.uid) + if n.TempLink? then ".tmp." + n.suffix else ""
  {
  }

  lemma RenderHasPrefix(prefix: string, n: Name)
    requires n.UidLink? || n.TempLink?
    ensures prefix <= Render(prefix, n)
  {
    RenderIs(prefix, n);
  }

  // ---------------------------------------------------------------- an ID that is not UTF-8

  lemma EncodeSix(b: seq<Byte>)
    requires |b| == 6
    ensures Encode(b) ==
            [Base64Char(b[0] / 4), Base64Char(b[0] % 4 * 16 + b[1] / 16), Base64Char(b[1] % 16 * 4 + b[2] / 64),
                          Base64Char(b[2] % 64), Base64Char(b[3] / 4), Base64Char(b[3] % 4 * 16 + b[4] / 16),
                          Base64Char(b[4] % 16 * 4 + b[5] / 64), Base64Char(b[5] % 64)]
  {
    var tail := b[3..];
    assert tail[3..] == [];
    assert Encode(tail) == [Base64Char(tail[0] / 4), Base64Char(tail[0] % 4 * 16 + tail[1] / 16),
                            Base64Char(tail[1] % 16 * 4 + tail[2] / 64), Base64Char(tail[2] % 64)] + Encode([]);
  }

  lemma EncodedBytes(v: seq<Byte>)
    requires v == [0x92, 0xB6, 0xF9, 0x71, 0xCF, 0xB4]
    ensures Encode(v) == ['k', 'r', 'b', '5', 'c', 'c', '+', '0']
  {
    EncodeSix(v);
  }

  lemma CacheNameOf(v: seq<Byte>)
    requires Encode(v) == ['k', 'r', 'b', '5', 'c', 'c', '+', '0']
    ensures CacheName(v) == ['k', 'r', 'b', '5', 'c', 'c', '_', '0']
  {
    CacheNameAt(v);
    var n := CacheName(v);
    assert |n| == 8 && n[0] == 'k' && n[1] == 'r' && n[2] == 'b' && n[3] == '5' && n[4] == 'c' && n[5] == 'c'
        && n[6] == '_' && n[7] == '0';
  }

  /** Without the UTF-8 requirement the names do collide: these bytes have the cache name of uid 0's link. */
  lemma InvalidIdCanCollide(v: seq<Byte>)
    requires v == [0x92, 0xB6, 0xF9, 0x71, 0xCF, 0xB4]
    ensures !Utf8(v) && CacheName(v) == LinkName(DefaultPrefix, 0)
  {
    assert CharLength(v) == 0;
    EncodedBytes(v);
    CacheNameOf(v);
    assert Decimal(0) == ['0'];
    assert CacheName(v) == DefaultPrefix + ['0'];
  }
}
