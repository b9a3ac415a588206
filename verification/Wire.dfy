/** The wire format as data: a message body's layout is a schema, and encoding and decoding are defined
    once, by recursion on it. Both implementations are proved against this. */
module Wire {
  import opened Options
  import opened Utf8

  const MAX_STRING: nat := 65535
  const MAX_LIST: nat := 65535

  datatype Schema =
    | Fixed(size: nat)                     // a little-endian number
    | Text                                 // u16 length, UTF-8 bytes
    | List(item: Schema)                   // u16 count, items
    | Pair(first: Schema, second: Schema)
    | Tail                                 // the rest of the body
    | Unit

  datatype Value =
    | Num(n: nat)
    | Chars(s: seq<byte>)
    | Items(vs: seq<Value>)
    | Two(a: Value, b: Value)
    | Blob(bytes: seq<byte>)
    | Nothing

  /** A value and what follows it, or a body too short or not UTF-8. */
  datatype Parsed = Short | Got(value: Value, rest: seq<byte>)

  // ------------------------------------------------------------ numbers

  function Limit(size: nat): (p: nat)
    ensures p > 0
  {
    if size == 0 then 1 else 256 * Limit(size - 1)
  }

  function LittleEndian(n: nat, size: nat): (s: seq<byte>)
    ensures |s| == size
  {
    if size == 0 then [] else [n % 256] + LittleEndian(n / 256, size - 1)
  }

  function FromLittleEndian(s: seq<byte>): (n: nat)
    ensures n < Limit(|s|)
  {
    if s == [] then 0 else s[0] + 256 * FromLittleEndian(s[1..])
  }

  lemma {:induction false} NumberRoundTrip(n: nat, size: nat)
    requires n < Limit(size)
    ensures FromLittleEndian(LittleEndian(n, size)) == n
  {
    if size > 0 {
      NumberRoundTrip(n / 256, size - 1);
      assert LittleEndian(n, size)[1..] == LittleEndian(n / 256, size - 1);
    }
  }

  lemma {:induction false} BytesRoundTrip(s: seq<byte>)
    ensures LittleEndian(FromLittleEndian(s), |s|) == s
  {
    if s != [] {
      BytesRoundTrip(s[1..]);
      LowByte(s[0], FromLittleEndian(s[1..]));
      assert s == [s[0]] + s[1..];
    }
  }

  lemma LowByte(b: byte, rest: nat)
    ensures (b + 256 * rest) % 256 == b && (b + 256 * rest) / 256 == rest
  {
  }

  lemma Limits()
    ensures Limit(1) == 0x100 && Limit(2) == 0x1_0000 && Limit(4) == 0x1_0000_0000
    ensures Limit(8) == 0x1_0000_0000_0000_0000
  {
    assert Limit(2) == 256 * Limit(1) && Limit(3) == 256 * Limit(2) && Limit(4) == 256 * Limit(3);
    assert Limit(5) == 256 * Limit(4) && Limit(6) == 256 * Limit(5) && Limit(7) == 256 * Limit(6);
    assert Limit(8) == 256 * Limit(7);
  }

  // ------------------------------------------------------------ encoding and decoding

  /** `v` is a value of layout `sc`, as the in-memory types guarantee; strings and lists of any length. */
  predicate Fits(sc: Schema, v: Value) {
    match sc
    case Fixed(k) => v.Num? && v.n < Limit(k)
    case Text => v.Chars? && Valid(v.s)
    case List(item) => v.Items? && forall i | 0 <= i < |v.vs| :: Fits(item, v.vs[i])
    case Pair(a, b) => v.Two? && Fits(a, v.a) && Fits(b, v.b)
    case Tail => v.Blob?
    case Unit => v == Nothing
  }

  function Shorter(n: nat): nat { if n <= MAX_LIST then n else MAX_LIST }

  /** What survives the trip: strings clipped, lists cut. */
  function Norm(sc: Schema, v: Value): Value
    requires Fits(sc, v)
    decreases sc, 0
  {
    match sc
    case Text => Chars(Clip(v.s, MAX_STRING))
    case List(item) => Items(NormItems(item, v.vs[..Shorter(|v.vs|)]))
    case Pair(a, b) => Two(Norm(a, v.a), Norm(b, v.b))
    case _ => v
  }

  function NormItems(item: Schema, vs: seq<Value>): (r: seq<Value>)
    requires forall i | 0 <= i < |vs| :: Fits(item, vs[i])
    ensures |r| == |vs| && forall i | 0 <= i < |vs| :: r[i] == Norm(item, vs[i])
    decreases item, |vs| + 1
  {
    if vs == [] then [] else [Norm(item, vs[0])] + NormItems(item, vs[1..])
  }

  function Enc(sc: Schema, v: Value): seq<byte>
    requires Fits(sc, v)
    decreases sc, 0
  {
    match sc
    case Fixed(k) => LittleEndian(v.n, k)
    case Text => var c := Clip(v.s, MAX_STRING); LittleEndian(|c|, 2) + c
    case List(item) => var n := Shorter(|v.vs|); LittleEndian(n, 2) + EncItems(item, v.vs[..n])
    case Pair(a, b) => Enc(a, v.a) + Enc(b, v.b)
    case Tail => v.bytes
    case Unit => []
  }

  function EncItems(item: Schema, vs: seq<Value>): seq<byte>
    requires forall i | 0 <= i < |vs| :: Fits(item, vs[i])
    decreases item, |vs| + 1
  {
    if vs == [] then [] else Enc(item, vs[0]) + EncItems(item, vs[1..])
  }

  function Dec(sc: Schema, b: seq<byte>): Parsed
    decreases sc, 0
  {
    match sc
    case Fixed(k) => if |b| < k then Short else Got(Num(FromLittleEndian(b[..k])), b[k..])
    case Text =>
      if |b| < 2 then Short
      else
        var n := FromLittleEndian(b[..2]);
        if |b| - 2 < n || !Valid(b[2..2 + n]) then Short else Got(Chars(b[2..2 + n]), b[2 + n..])
    case List(item) =>
      if |b| < 2 then Short
      else
        (match DecItems(item, FromLittleEndian(b[..2]), b[2..])
         case None => Short
         case Some((vs, rest)) => Got(Items(vs), rest))
    case Pair(x, y) =>
      (match Dec(x, b)
       case Short => Short
       case Got(vx, r) =>
         match Dec(y, r)
         case Short => Short
         case Got(vy, r') => Got(Two(vx, vy), r'))
    case Tail => Got(Blob(b), [])
    case Unit => Got(Nothing, b)
  }

  function DecItems(item: Schema, n: nat, b: seq<byte>): (r: Option<(seq<Value>, seq<byte>)>)
    ensures r.Some? ==> |r.value.0| == n
    decreases item, n + 1
  {
    if n == 0 then Some(([], b))
    else
      match Dec(item, b)
      case Short => None
      case Got(v, rest) =>
        match DecItems(item, n - 1, rest)
        case None => None
        case Some((vs, rest')) => Some(([v] + vs, rest'))
  }

  /** No `Tail` inside: the layout says where the value ends. */
  predicate Closed(sc: Schema) {
    match sc
    case List(item) => Closed(item)
    case Pair(a, b) => Closed(a) && Closed(b)
    case Tail => false
    case _ => true
  }

  // ------------------------------------------------------------ laws

  function Then(p: Parsed, sc: Schema): Parsed {
    match p
    case Short => Short
    case Got(x, r) =>
      match Dec(sc, r)
      case Short => Short
      case Got(y, r') => Got(Two(x, y), r')
  }

  lemma DecPair(a: Schema, b: Schema, s: seq<byte>)
    ensures Dec(Pair(a, b), s) == Then(Dec(a, s), b)
  {
  }

  /** A length-prefixed body splits back into its prefix and what follows. */
  lemma Prefixed(n: nat, body: seq<byte>, rest: seq<byte>)
    requires n <= MAX_LIST
    ensures var b := LittleEndian(n, 2) + body + rest;
      |b| >= 2 && FromLittleEndian(b[..2]) == n && b[2..] == body + rest
  {
    Limits();
    NumberRoundTrip(n, 2);
    var b := LittleEndian(n, 2) + body + rest;
    assert b[..2] == LittleEndian(n, 2) && b[2..] == body + rest;
  }

  lemma TextRoundTrip(s: Str, rest: seq<byte>)
    ensures Dec(Text, Enc(Text, Chars(s)) + rest) == Got(Norm(Text, Chars(s)), rest)
  {
    var c := Clip(s, MAX_STRING);
    ClipLongest(s, MAX_STRING);
    Prefixed(|c|, c, rest);
    var b := Enc(Text, Chars(s)) + rest;
    assert b[2..2 + |c|] == b[2..][..|c|] == c && b[2 + |c|..] == b[2..][|c|..] == rest;
  }

  /** Decoding what was encoded gives back the clipped value and consumes exactly its bytes. */
  lemma {:induction false} RoundTrip(sc: Schema, v: Value, rest: seq<byte>)
    requires Fits(sc, v) && Closed(sc)
    ensures Dec(sc, Enc(sc, v) + rest) == Got(Norm(sc, v), rest)
    decreases sc, 0
  {
    hide LittleEndian, FromLittleEndian, Clip, Valid;
    match sc {
      case Fixed(k) =>
        NumberRoundTrip(v.n, k);
        var e := Enc(sc, v);
        assert (e + rest)[..k] == e && (e + rest)[k..] == rest;
      case Text => TextRoundTrip(v.s, rest);
      case List(item) =>
        var n := Shorter(|v.vs|);
        Prefixed(n, EncItems(item, v.vs[..n]), rest);
        ItemsRoundTrip(item, v.vs[..n], rest);
      case Pair(a, b) => PairRoundTrip(a, b, v.a, v.b, rest);
      case Unit =>
        assert Enc(sc, v) + rest == rest;
    }
  }

  lemma {:induction false} PairRoundTrip(a: Schema, b: Schema, x: Value, y: Value, rest: seq<byte>)
    requires Fits(a, x) && Fits(b, y) && Closed(a) && Closed(b)
    ensures Dec(Pair(a, b), Enc(a, x) + Enc(b, y) + rest) == Got(Two(Norm(a, x), Norm(b, y)), rest)
    decreases Pair(a, b), 0, 0
  {
    hide Dec, Enc, Norm, Fits, Closed;
    DecPair(a, b, Enc(a, x) + Enc(b, y) + rest);
    RoundTrip(a, x, Enc(b, y) + rest);
    RoundTrip(b, y, rest);
    assert Enc(a, x) + Enc(b, y) + rest == Enc(a, x) + (Enc(b, y) + rest);
  }

  lemma {:induction false} ItemsRoundTrip(item: Schema, vs: seq<Value>, rest: seq<byte>)
    requires Closed(item) && forall i | 0 <= i < |vs| :: Fits(item, vs[i])
    ensures DecItems(item, |vs|, EncItems(item, vs) + rest) == Some((NormItems(item, vs), rest))
    decreases item, |vs| + 1
  {
    hide Enc, Norm, Dec, Closed, Fits;
    if vs == [] {
      assert EncItems(item, vs) + rest == rest;
    } else {
      RoundTrip(item, vs[0], EncItems(item, vs[1..]) + rest);
      ItemsRoundTrip(item, vs[1..], rest);
      assert EncItems(item, vs) + rest == Enc(item, vs[0]) + (EncItems(item, vs[1..]) + rest);
    }
  }

  /** Appended bytes change nothing but the rest. */
  lemma {:induction false} Extends(sc: Schema, b: seq<byte>, c: seq<byte>)
    requires Closed(sc) && Dec(sc, b).Got?
    ensures Dec(sc, b + c) == Got(Dec(sc, b).value, Dec(sc, b).rest + c)
    decreases sc, 0
  {
    hide FromLittleEndian, Valid;
    match sc {
      case Fixed(k) =>
        assert (b + c)[..k] == b[..k] && (b + c)[k..] == b[k..] + c;
      case Text => TextExtends(b, c);
      case List(item) =>
        assert (b + c)[..2] == b[..2] && (b + c)[2..] == b[2..] + c;
        ItemsExtend(item, FromLittleEndian(b[..2]), b[2..], c);
      case Pair(x, y) => PairExtends(x, y, b, c);
      case Unit =>
    }
  }

  lemma TextExtends(b: seq<byte>, c: seq<byte>)
    requires Dec(Text, b).Got?
    ensures Dec(Text, b + c) == Got(Dec(Text, b).value, Dec(Text, b).rest + c)
  {
    hide FromLittleEndian, Valid;
    var n := FromLittleEndian(b[..2]);
    assert (b + c)[..2] == b[..2] && (b + c)[2..2 + n] == b[2..2 + n] && (b + c)[2 + n..] == b[2 + n..] + c;
  }

  lemma {:induction false} PairExtends(x: Schema, y: Schema, b: seq<byte>, c: seq<byte>)
    requires Closed(x) && Closed(y) && Dec(Pair(x, y), b).Got?
    ensures Dec(Pair(x, y), b + c) == Got(Dec(Pair(x, y), b).value, Dec(Pair(x, y), b).rest + c)
    decreases Pair(x, y), 0, 0
  {
    hide Dec, Closed;
    DecPair(x, y, b);
    DecPair(x, y, b + c);
    Extends(x, b, c);
    Extends(y, Dec(x, b).rest, c);
  }

  lemma {:induction false} ItemsExtend(item: Schema, n: nat, b: seq<byte>, c: seq<byte>)
    requires Closed(item) && DecItems(item, n, b).Some?
    ensures var r := DecItems(item, n, b).value;
      DecItems(item, n, b + c) == Some((r.0, r.1 + c))
    decreases item, n + 1
  {
    hide Dec, Closed;
    if n > 0 {
      Extends(item, b, c);
      ItemsExtend(item, n - 1, Dec(item, b).rest, c);
    }
  }

  /** Every proper prefix of an encoded value is too short. */
  lemma ProperPrefixIsShort(sc: Schema, v: Value, cut: nat)
    requires Fits(sc, v) && Closed(sc) && cut < |Enc(sc, v)|
    ensures Dec(sc, Enc(sc, v)[..cut]) == Short
  {
    hide Dec, Enc, Norm, Fits, Closed;
    var e := Enc(sc, v);
    if Dec(sc, e[..cut]).Got? {
      Extends(sc, e[..cut], e[cut..]);
      assert e[..cut] + e[cut..] == e && e + [] == e;
      RoundTrip(sc, v, []);
    }
  }

  ghost predicate Canonical(sc: Schema, v: Value, b: seq<byte>, rest: seq<byte>) {
    Fits(sc, v) && Norm(sc, v) == v && Enc(sc, v) + rest == b
  }

  ghost predicate CanonicalItems(item: Schema, vs: seq<Value>, b: seq<byte>, rest: seq<byte>) {
    (forall i | 0 <= i < |vs| :: Fits(item, vs[i])) && NormItems(item, vs) == vs && EncItems(item, vs) + rest == b
  }

  /** A decoded value is well formed, needs no clipping, and re-encodes to exactly the bytes it came
      from: no two bodies carry the same value in different bytes. */
  lemma {:induction false} DecodeIsCanonical(sc: Schema, b: seq<byte>)
    requires Closed(sc) && Dec(sc, b).Got?
    ensures Canonical(sc, Dec(sc, b).value, b, Dec(sc, b).rest)
    decreases sc, 0
  {
    hide LittleEndian, FromLittleEndian, Clip, Valid;
    match sc {
      case Fixed(k) =>
        BytesRoundTrip(b[..k]);
        assert b[..k] + b[k..] == b;
      case Text => TextCanonical(b);
      case List(item) => ListCanonical(item, b);
      case Pair(x, y) =>
        DecodeIsCanonical(x, b);
        DecodeIsCanonical(y, Dec(x, b).rest);
        PairCanonical(x, y, b);
      case Unit => assert [] + b == b;
    }
  }

  lemma PairCanonical(x: Schema, y: Schema, b: seq<byte>)
    requires Dec(x, b).Got? && Dec(y, Dec(x, b).rest).Got?
    requires Canonical(x, Dec(x, b).value, b, Dec(x, b).rest)
    requires Canonical(y, Dec(y, Dec(x, b).rest).value, Dec(x, b).rest, Dec(y, Dec(x, b).rest).rest)
    ensures var p := Dec(Pair(x, y), b);
      p.Got? && Canonical(Pair(x, y), p.value, b, p.rest)
  {
    hide Dec, Valid, Clip, LittleEndian;
    DecPair(x, y, b);
    var Got(vx, r) := Dec(x, b);
    var Got(vy, r') := Dec(y, r);
    assert Enc(x, vx) + Enc(y, vy) + r' == Enc(x, vx) + (Enc(y, vy) + r');
  }

  lemma TextCanonical(b: seq<byte>)
    requires Dec(Text, b).Got?
    ensures Canonical(Text, Dec(Text, b).value, b, Dec(Text, b).rest)
  {
    Limits();
    BytesRoundTrip(b[..2]);
    var n := FromLittleEndian(b[..2]);
    assert b == b[..2] + b[2..2 + n] + b[2 + n..];
  }

  lemma ListParts(item: Schema, b: seq<byte>)
    requires Dec(List(item), b).Got?
    ensures |b| >= 2 && FromLittleEndian(b[..2]) <= MAX_LIST
    ensures var items := DecItems(item, FromLittleEndian(b[..2]), b[2..]);
      items.Some? && Dec(List(item), b) == Got(Items(items.value.0), items.value.1)
  {
    Limits();
  }

  lemma CountedItems(item: Schema, vs: seq<Value>, b: seq<byte>, rest: seq<byte>)
    requires |b| >= 2 && |vs| == FromLittleEndian(b[..2]) <= MAX_LIST && CanonicalItems(item, vs, b[2..], rest)
    ensures Canonical(List(item), Items(vs), b, rest)
  {
    hide FromLittleEndian, LittleEndian, NormItems, EncItems;
    BytesRoundTrip(b[..2]);
    assert vs[..|vs|] == vs;
    assert b == b[..2] + (EncItems(item, vs) + rest);
    assert b[..2] + EncItems(item, vs) + rest == b[..2] + (EncItems(item, vs) + rest);
  }

  lemma {:induction false} ListCanonical(item: Schema, b: seq<byte>)
    requires Closed(item) && Dec(List(item), b).Got?
    ensures Canonical(List(item), Dec(List(item), b).value, b, Dec(List(item), b).rest)
    decreases List(item), 0, 0
  {
    hide Dec, DecItems, FromLittleEndian, Canonical, CanonicalItems;
    ListParts(item, b);
    var n := FromLittleEndian(b[..2]);
    ItemsCanonical(item, n, b[2..]);
    var (vs, rest) := DecItems(item, n, b[2..]).value;
    CountedItems(item, vs, b, rest);
  }

  lemma {:induction false} ItemsCanonical(item: Schema, n: nat, b: seq<byte>)
    requires Closed(item) && DecItems(item, n, b).Some?
    ensures CanonicalItems(item, DecItems(item, n, b).value.0, b, DecItems(item, n, b).value.1)
    decreases item, n + 1
  {
    hide Enc, Norm, Dec, Closed, Fits;
    if n == 0 {
      assert [] + b == b;
    } else {
      DecodeIsCanonical(item, b);
      var Got(v, r) := Dec(item, b);
      ItemsCanonical(item, n - 1, r);
      var (vs, rest) := DecItems(item, n - 1, r).value;
      assert ([v] + vs)[1..] == vs;
      assert Enc(item, v) + EncItems(item, vs) + rest == Enc(item, v) + (EncItems(item, vs) + rest);
    }
  }

  // ------------------------------------------------------------ layouts of fixed size

  /** The size of a layout made of numbers alone. */
  function Width(sc: Schema): Option<nat> {
    match sc
    case Fixed(k) => Some(k)
    case Pair(a, b) => if Width(a).Some? && Width(b).Some? then Some(Width(a).value + Width(b).value) else None
    case _ => None
  }

  lemma {:induction false} NumbersSurvive(sc: Schema, v: Value)
    requires Width(sc).Some? && Fits(sc, v)
    ensures Norm(sc, v) == v
  {
    if sc.Pair? {
      NumbersSurvive(sc.first, v.a);
      NumbersSurvive(sc.second, v.b);
    }
  }

  lemma {:induction false} NumberBytes(sc: Schema, v: Value)
    requires Width(sc).Some? && Fits(sc, v)
    ensures |Enc(sc, v)| == Width(sc).value
  {
    if sc.Pair? {
      NumberBytes(sc.first, v.a);
      NumberBytes(sc.second, v.b);
    }
  }

  lemma PairBytes(a: Schema, b: Schema, v: Value)
    requires Fits(Pair(a, b), v)
    ensures Fits(a, v.a) && Fits(b, v.b) && Enc(Pair(a, b), v) == Enc(a, v.a) + Enc(b, v.b)
  {
  }

  lemma TextBytes(s: Str)
    ensures |s| <= MAX_STRING ==> |Enc(Text, Chars(s))| == 2 + |s|
  {
  }

  /** Numbers decode whenever enough bytes are left, whatever they are. */
  lemma {:induction false} NumbersDecode(sc: Schema, b: seq<byte>)
    requires Width(sc).Some?
    ensures Dec(sc, b).Got? <==> |b| >= Width(sc).value
    ensures Dec(sc, b).Got? ==> Dec(sc, b).rest == b[Width(sc).value..]
  {
    if sc.Pair? {
      NumbersDecode(sc.first, b);
      if |b| >= Width(sc.first).value {
        NumbersDecode(sc.second, b[Width(sc.first).value..]);
      }
    }
  }

  lemma NumberItemsDecode(item: Schema, n: nat, b: seq<byte>)
    requires Width(item).Some?
    ensures DecItems(item, n, b).Some? <==> |b| >= n * Width(item).value
    ensures DecItems(item, n, b).Some? ==> DecItems(item, n, b).value.1 == b[n * Width(item).value..]
  {
    NumberItemsTake(item, Width(item).value, n, n * Width(item).value, b);
  }

  lemma {:induction false} NumberItemsTake(item: Schema, w: nat, n: nat, total: nat, b: seq<byte>)
    requires Width(item) == Some(w) && IsMultiple(total, n, w)
    ensures DecItems(item, n, b).Some? <==> |b| >= total
    ensures DecItems(item, n, b).Some? ==> DecItems(item, n, b).value.1 == b[total..]
    decreases n
  {
    hide Width, Dec, IsMultiple;
    Multiple(total, n, w);
    if n > 0 {
      NumbersDecode(item, b);
      if |b| >= w {
        NumberItemsTake(item, w, n - 1, total - w, b[w..]);
        DropTwice(b, w, total - w, total);
      }
    }
  }

  predicate IsMultiple(total: nat, n: nat, w: nat) { total == n * w }

  lemma Multiple(total: nat, n: nat, w: nat)
    requires IsMultiple(total, n, w)
    ensures n == 0 ==> total == 0
    ensures n > 0 ==> total >= w && IsMultiple(total - w, n - 1, w)
  {
    if n > 0 {
      assert n * w == w + (n - 1) * w;
    }
  }

  lemma DropTwice(b: seq<byte>, i: nat, j: nat, k: nat)
    requires k == i + j
    ensures k <= |b| ==> b[i..][j..] == b[k..]
  {
  }
}
