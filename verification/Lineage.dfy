/**
  Cursor pagination of lineage: `paginate_lineage`, `parse_cursor` and `cursor_plaintext`
  of `artifact.rs`. The encryption of a cursor is a parameter (`Codec`): opening a sealed
  cursor gives back its plaintext.
 */
module Lineage {
  import opened Options
  import Integers

  datatype Failure = Invalid | Forbidden | StorageUnavailable
  datatype Result<T> = Ok(value: T) | Err(failure: Failure)

  const DEFAULT_PAGE_SIZE: nat := 50
  const MAX_PAGE_SIZE: nat := 1000
  const CURSOR_DOMAIN := "r6b-lineage-v1"
  const USIZE_MAX: nat := 0xFFFF_FFFF_FFFF_FFFF

  // ---------- Printing ----------

  newtype byte = x: int | 0 <= x < 256

  function HexDigit(n: int): char
    requires 0 <= n < 16
  {
    "0123456789abcdef"[n]
  }

  function HashHex(bytes: seq<byte>): string {
    if bytes == [] then ""
    else HashHex(bytes[..|bytes| - 1])
         + [HexDigit(bytes[|bytes| - 1] as int / 16), HexDigit(bytes[|bytes| - 1] as int % 16)]
  }

  function Digit(n: int): char
    requires 0 <= n < 10
  {
    ('0' as int + n) as char
  }

  function Decimal(n: nat): string {
    if n < 10 then [Digit(n)] else Decimal(n / 10) + [Digit(n % 10)]
  }

  datatype Kind = Artifact | SignalSet

  function Token(kind: Kind): string {
    match kind
    case Artifact => "artifact"
    case SignalSet => "signal-set"
  }

  /** What a lineage cursor is bound to. */
  datatype Binding = Binding(principal: seq<byte>, kind: Kind, resource: string, hash: seq<byte>, pageSize: nat)

  function Fields(b: Binding, index: nat): seq<string> {
    [CURSOR_DOMAIN, HashHex(b.principal), Token(b.kind), b.resource, HashHex(b.hash), Decimal(b.pageSize), Decimal(index)]
  }

  function Join(fields: seq<string>): string
    requires fields != []
  {
    if |fields| == 1 then fields[0] else fields[0] + ":" + Join(fields[1..])
  }

  function CursorPlaintext(b: Binding, index: nat): string {
    Join(Fields(b, index))
  }

  // ---------- Parsing ----------

  /** `str::split(':')`: one piece more than there are separators. */
  function Split(s: string): (pieces: seq<string>)
    ensures |pieces| > 0
  {
    if s == "" then [""]
    else
      var rest := Split(s[1..]);
      if s[0] == ':' then [""] + rest
      else [[s[0]] + rest[0]] + rest[1..]
  }

  predicate IsDigit(c: char) {
    '0' <= c <= '9'
  }

  predicate AllDigits(s: string) {
    forall i :: 0 <= i < |s| ==> IsDigit(s[i])
  }

  function DigitValue(c: char): nat
    requires IsDigit(c)
  {
    c as int - '0' as int
  }

  function DigitsValue(s: string): nat
    requires AllDigits(s)
  {
    if s == "" then 0 else 10 * DigitsValue(s[..|s| - 1]) + DigitValue(s[|s| - 1])
  }

  /** `usize::from_str`: an optional plus sign, at least one digit, no overflow. */
  function ParseUsize(s: string): Option<nat> {
    var digits := if s != "" && s[0] == '+' then s[1..] else s;
    if digits == "" || !AllDigits(digits) then None
    else if DigitsValue(digits) > USIZE_MAX then None
    else Some(DigitsValue(digits))
  }

  function ParseCursor(plaintext: string, b: Binding): Result<nat> {
    var fields := Split(plaintext);
    if |fields| != 7 || fields[0] != CURSOR_DOMAIN || fields[1] != HashHex(b.principal)
       || fields[2] != Token(b.kind) || fields[3] != b.resource || fields[4] != HashHex(b.hash)
       || fields[5] != Decimal(b.pageSize) then Err(Forbidden)
    else
      match ParseUsize(fields[6])
      case None => Err(Forbidden)
      case Some(n) => Ok(n)
  }

  // ---------- Printed numbers and digests ----------

  lemma {:induction false} DecimalParses(n: nat)
    ensures Decimal(n) != "" && AllDigits(Decimal(n)) && DigitsValue(Decimal(n)) == n
  {
    if n < 10 {
      assert Decimal(n) == [Digit(n)];
    } else {
      DecimalParses(n / 10);
      AppendDigit(Decimal(n / 10), n % 10);
    }
  }

  lemma AppendDigit(s: string, d: nat)
    requires AllDigits(s) && d < 10
    ensures AllDigits(s + [Digit(d)]) && DigitsValue(s + [Digit(d)]) == 10 * DigitsValue(s) + d
  {
    assert (s + [Digit(d)])[..|s|] == s;
  }

  lemma DecimalRoundTrip(n: nat)
    requires n <= USIZE_MAX
    ensures ParseUsize(Decimal(n)) == Some(n)
  {
    DecimalParses(n);
    assert IsDigit(Decimal(n)[0]);
  }

  lemma DecimalInjective(m: nat, n: nat)
    requires Decimal(m) == Decimal(n)
    ensures m == n
  {
    DecimalParses(m);
    DecimalParses(n);
  }

  /** Lower-case hexadecimal digits. */
  lemma HexDigitIs(n: int)
    requires 0 <= n < 16
    ensures HexDigit(n) as int == if n < 10 then '0' as int + n else 'a' as int + n - 10
  {
  }

  lemma HexDigitInjective(m: int, n: int)
    requires 0 <= m < 16 && 0 <= n < 16 && HexDigit(m) == HexDigit(n)
    ensures m == n
  {
  }

  lemma {:induction false} HexShape(bytes: seq<byte>)
    ensures |HashHex(bytes)| == 2 * |bytes|
    ensures ':' !in HashHex(bytes)
  {
    if bytes != [] { HexShape(bytes[..|bytes| - 1]); }
  }

  lemma {:induction false} HexInjective(a: seq<byte>, b: seq<byte>)
    requires HashHex(a) == HashHex(b)
    ensures a == b
  {
    hide HexDigit;
    HexShape(a);
    HexShape(b);
    if a != [] {
      var n := |a| - 1;
      LastByte(a, b);
      HexInjective(a[..n], b[..n]);
      assert a == a[..n] + [a[n]] && b == b[..n] + [b[n]];
    }
  }

  lemma LastByte(a: seq<byte>, b: seq<byte>)
    requires |a| == |b| > 0 && HashHex(a) == HashHex(b)
    ensures var n := |a| - 1; a[n] == b[n] && HashHex(a[..n]) == HashHex(b[..n])
  {
    hide HashHex, HexDigit;
    var n := |a| - 1;
    HexLast(a);
    HexLast(b);
    var x, y := a[n] as int, b[n] as int;
    HexDigitInjective(x / 16, y / 16);
    HexDigitInjective(x % 16, y % 16);
  }

  lemma HexLast(bytes: seq<byte>)
    requires bytes != []
    ensures var n := |bytes| - 1;
      |HashHex(bytes)| == 2 * n + 2 && HashHex(bytes)[..2 * n] == HashHex(bytes[..n])
      && HashHex(bytes)[2 * n] == HexDigit(bytes[n] as int / 16)
      && HashHex(bytes)[2 * n + 1] == HexDigit(bytes[n] as int % 16)
  {
    HexShape(bytes[..|bytes| - 1]);
  }

  // ---------- Split inverts join ----------

  lemma {:induction false} SplitPlain(s: string)
    requires ':' !in s
    ensures Split(s) == [s]
  {
    if s != "" {
      SplitPlain(s[1..]);
      assert s == [s[0]] + s[1..];
    }
  }

  lemma {:induction false} SplitHead(s: string, rest: string)
    requires ':' !in s
    ensures Split(s + ":" + rest) == [s] + Split(rest)
  {
    var whole := s + ":" + rest;
    if s == "" {
      assert whole[1..] == rest;
    } else {
      assert whole[1..] == s[1..] + ":" + rest;
      SplitHead(s[1..], rest);
      assert s == [s[0]] + s[1..];
      assert ([s[1..]] + Split(rest))[1..] == Split(rest);
    }
  }

  lemma {:induction false} SplitInvertsJoin(fields: seq<string>)
    requires fields != [] && forall i :: 0 <= i < |fields| ==> ':' !in fields[i]
    ensures Split(Join(fields)) == fields
  {
    if |fields| == 1 {
      SplitPlain(fields[0]);
    } else {
      SplitInvertsJoin(fields[1..]);
      SplitHead(fields[0], Join(fields[1..]));
    }
  }

  /** Splitting counts separators, so any separator inside a field shows. */
  function Colons(s: string): nat {
    if s == "" then 0 else (if s[0] == ':' then 1 else 0) + Colons(s[1..])
  }

  lemma {:induction false} SplitCounts(s: string)
    ensures |Split(s)| == Colons(s) + 1
  {
    if s != "" { SplitCounts(s[1..]); }
  }

  lemma {:induction false} ColonsConcat(a: string, b: string)
    ensures Colons(a + b) == Colons(a) + Colons(b)
  {
    if a != "" {
      assert (a + b)[1..] == a[1..] + b;
      ColonsConcat(a[1..], b);
    } else {
      assert a + b == b;
    }
  }

  lemma {:induction false} ColonsZero(s: string)
    ensures Colons(s) == 0 <==> ':' !in s
  {
    if s != "" { ColonsZero(s[1..]); }
  }

  function TotalColons(fields: seq<string>): nat {
    if fields == [] then 0 else Colons(fields[0]) + TotalColons(fields[1..])
  }

  lemma {:induction false} JoinColons(fields: seq<string>)
    requires fields != []
    ensures Colons(Join(fields)) == |fields| - 1 + TotalColons(fields)
  {
    if |fields| > 1 {
      JoinColons(fields[1..]);
      ColonsConcat(fields[0] + ":", Join(fields[1..]));
      ColonsConcat(fields[0], ":");
      assert Colons(":") == 1;
    } else {
      assert TotalColons(fields[1..]) == 0;
    }
  }

  lemma {:induction false} ColonSomewhere(fields: seq<string>, i: nat)
    requires i < |fields| && ':' in fields[i]
    ensures TotalColons(fields) > 0
  {
    if i == 0 { ColonsZero(fields[0]); } else { ColonSomewhere(fields[1..], i - 1); }
  }

  lemma PrintedFieldsPlain(b: Binding, index: nat)
    ensures forall i :: 0 <= i < 7 && i != 3 ==> ':' !in Fields(b, index)[i]
  {
    HexShape(b.principal);
    HexShape(b.hash);
    DecimalParses(b.pageSize);
    DecimalParses(index);
    hide HashHex, Decimal;
    assert ':' !in Decimal(b.pageSize) && ':' !in Decimal(index);
  }

  /** A plaintext falls into its seven fields exactly when the resource has no separator. */
  lemma PlaintextFields(b: Binding, index: nat)
    ensures ':' !in b.resource ==> Split(CursorPlaintext(b, index)) == Fields(b, index)
    ensures ':' in b.resource ==> |Split(CursorPlaintext(b, index))| > 7
  {
    PrintedFieldsPlain(b, index);
    if ':' in b.resource {
      JoinColons(Fields(b, index));
      ColonSomewhere(Fields(b, index), 3);
      SplitCounts(CursorPlaintext(b, index));
    } else {
      SplitInvertsJoin(Fields(b, index));
    }
  }

  /**
    parse_cursor inverts cursor_plaintext, and accepts an issued plaintext exactly when
    principal, kind, resource, content hash and page size are all the ones it was issued for.
   */
  lemma ParseAcceptsOnlyItsBinding(issued: Binding, index: nat, presented: Binding)
    requires index <= USIZE_MAX
    ensures ParseCursor(CursorPlaintext(issued, index), presented)
         == if issued == presented && ':' !in issued.resource then Ok(index) else Err(Forbidden)
  {
    PlaintextFields(issued, index);
    DecimalRoundTrip(index);
    if ':' !in issued.resource {
      var f, g := Fields(issued, index), Fields(presented, index);
      if f[1] == g[1] { HexInjective(issued.principal, presented.principal); }
      if f[4] == g[4] { HexInjective(issued.hash, presented.hash); }
      if f[5] == g[5] { DecimalInjective(issued.pageSize, presented.pageSize); }
      TokenInjective(issued.kind, presented.kind);
    }
  }

  lemma TokenInjective(a: Kind, b: Kind)
    ensures Token(a) == Token(b) <==> a == b
  {
    assert Token(Artifact)[0] != Token(SignalSet)[0];
  }

  // ---------- Pages ----------

  /** Sealing takes a nonce, so the same plaintext may be sealed to different tokens. */
  datatype Codec = Codec(seal: (nat, string) -> Option<string>, open: string -> Option<string>)

  /** Authenticated encryption: what is sealed opens to itself, and no token is empty. */
  ghost predicate Opens(codec: Codec) {
    forall nonce, text :: codec.seal(nonce, text).Some? ==>
      codec.seal(nonce, text).value != "" && codec.open(codec.seal(nonce, text).value) == Some(text)
  }

  datatype Page<T> = Page(items: seq<T>, nextCursor: string)

  function EffectiveSize(requested: nat): nat {
    if requested == 0 then DEFAULT_PAGE_SIZE else requested
  }

  function Start(codec: Codec, b: Binding, cursor: string): Result<nat> {
    if cursor == "" then Ok(0)
    else
      match codec.open(cursor)
      case None => Err(Forbidden)
      case Some(text) => ParseCursor(text, b)
  }

  /** One page. `b.pageSize` carries the requested size; the cursor is bound to the effective one. */
  function PaginateLineage<T>(codec: Codec, nonce: nat, b: Binding, lineage: seq<T>, cursor: string): Result<Page<T>> {
    var size := EffectiveSize(b.pageSize);
    if size > MAX_PAGE_SIZE then Err(Invalid)
    else
      var bound := b.(pageSize := size);
      match Start(codec, bound, cursor)
      case Err(e) => Err(e)
      case Ok(start) =>
        if start > |lineage| then Err(Forbidden)
        else
          var end := if start + size < |lineage| then start + size else |lineage|;
          if end < |lineage| then
            match codec.seal(nonce, CursorPlaintext(bound, end))
            case None => Err(StorageUnavailable)
            case Some(token) => Ok(Page(lineage[start..end], token))
          else Ok(Page(lineage[start..end], ""))
  }

  /**
    A nonempty cursor is accepted only if it opens to a text of seven fields that name the
    domain, the principal, the kind, the resource, the hash and the page size asked for, and
    an index within the lineage; anything else is forbidden.
   */
  lemma CursorAccepted<T>(codec: Codec, nonce: nat, b: Binding, lineage: seq<T>, cursor: string)
    requires cursor != "" && EffectiveSize(b.pageSize) <= MAX_PAGE_SIZE
    ensures var r := PaginateLineage(codec, nonce, b, lineage, cursor);
      && (codec.open(cursor).None? ==> r == Err(Forbidden))
      && (codec.open(cursor).Some? ==>
            var fields := Split(codec.open(cursor).value);
            var size := if b.pageSize == 0 then 50 else b.pageSize;
            var named := |fields| == 7 && fields[..6]
              == ["r6b-lineage-v1", HashHex(b.principal), if b.kind.Artifact? then "artifact" else "signal-set",
                  b.resource, HashHex(b.hash), Decimal(size)];
            && (!named ==> r == Err(Forbidden))
            && (named && ParseUsize(fields[6]).None? ==> r == Err(Forbidden))
            && (named && ParseUsize(fields[6]).Some? && ParseUsize(fields[6]).value > |lineage| ==> r == Err(Forbidden))
            && (r.Ok? ==> named && ParseUsize(fields[6]).Some?))
  {
    hide ParseUsize, HashHex, Decimal;
    if codec.open(cursor).Some? {
      var fields := Split(codec.open(cursor).value);
      hide Split, CursorPlaintext;
      if |fields| == 7 {
        assert fields[..6] == [fields[0], fields[1], fields[2], fields[3], fields[4], fields[5]];
      }
    }
  }

  /** A request without a page size is a request for 50; more than 1000 is invalid. */
  lemma PageSizes<T>(codec: Codec, nonce: nat, b: Binding, lineage: seq<T>, cursor: string)
    ensures PaginateLineage(codec, nonce, b.(pageSize := 0), lineage, cursor)
         == PaginateLineage(codec, nonce, b.(pageSize := 50), lineage, cursor)
    ensures b.pageSize > 1000 ==> PaginateLineage(codec, nonce, b, lineage, cursor) == Err(Invalid)
    ensures PaginateLineage(codec, nonce, b, lineage, cursor) == Err(Invalid) ==> b.pageSize > 1000
  {
    assert b.(pageSize := 0).(pageSize := 50) == b.(pageSize := 50);
    hide CursorPlaintext, Split, ParseUsize;
  }

  /** A cursor that continues at `start`. */
  ghost predicate Continues(codec: Codec, b: Binding, cursor: string, start: nat) {
    Start(codec, b.(pageSize := EffectiveSize(b.pageSize)), cursor) == Ok(start)
  }

  /**
    One step of a traversal: the page is the next slice, and its cursor continues after it,
    or is refused when the resource name holds the separator.
   */
  lemma PageStep<T>(codec: Codec, nonce: nat, b: Binding, lineage: seq<T>, cursor: string, start: nat)
    requires Opens(codec) && EffectiveSize(b.pageSize) <= MAX_PAGE_SIZE
    requires |lineage| <= USIZE_MAX && start <= |lineage| && Continues(codec, b, cursor, start)
    ensures var size := EffectiveSize(b.pageSize);
      var end := if start + size < |lineage| then start + size else |lineage|;
      var r := PaginateLineage(codec, nonce, b, lineage, cursor);
      && (r.Ok? ==> r.value.items == lineage[start..end] && (r.value.nextCursor == "" <==> end == |lineage|))
      && (r.Ok? && end < |lineage| && ':' !in b.resource ==> Continues(codec, b, r.value.nextCursor, end))
      && (r.Ok? && end < |lineage| && ':' in b.resource ==> Refused(codec, b, r.value.nextCursor))
      && (r.Err? ==> r.failure.StorageUnavailable?)
  {
    var size := EffectiveSize(b.pageSize);
    var end := if start + size < |lineage| then start + size else |lineage|;
    var bound := b.(pageSize := size);
    ParseAcceptsOnlyItsBinding(bound, end, bound);
    hide CursorPlaintext, ParseCursor;
  }

  /** A cursor that is turned away whatever the lineage. */
  ghost predicate Refused(codec: Codec, b: Binding, cursor: string) {
    Start(codec, b.(pageSize := EffectiveSize(b.pageSize)), cursor) == Err(Forbidden)
  }

  function PageCount(length: nat, size: nat): nat
    requires size > 0
  {
    if length == 0 then 1 else (length + size - 1) / size
  }

  const CROCKFORD := "0123456789ABCDEFGHJKMNPQRSTVWXYZ"

  /** The identifiers that artifacts and signal sets have: 26 characters of the canonical alphabet. */
  predicate IsUlid(s: string) {
    |s| == 26 && forall i :: 0 <= i < |s| ==> s[i] in CROCKFORD
  }

  lemma UlidHasNoSeparator(s: string)
    requires IsUlid(s)
    ensures ':' !in s
  {
    assert ':' !in CROCKFORD;
  }

  /** A codec that never fails to seal. */
  ghost predicate Seals(codec: Codec) {
    forall nonce, text :: codec.seal(nonce, text).Some?
  }

  /** How a traversal may end: complete, or with one of three failures and its cause. */
  ghost predicate ReadOutcome<T>(codec: Codec, b: Binding, lineage: seq<T>, failure: Option<Failure>, read: seq<T>, pages: nat) {
    var size := EffectiveSize(b.pageSize);
    && (failure.None? ==> read == lineage && pages == PageCount(|lineage|, size))
    && (failure.None? ==> ':' !in b.resource || |lineage| <= size)
    && (failure == Some(Invalid) <==> size > MAX_PAGE_SIZE)
    && (failure == Some(Forbidden) ==> ':' in b.resource && |lineage| > size && read == lineage[..size])
    && (failure == Some(StorageUnavailable) ==> read < lineage && exists nonce, text :: codec.seal(nonce, text).None?)
  }

  /** The identifiers of the service hold no separator, so it always serves the whole lineage. */
  lemma ServiceReadsAll<T>(codec: Codec, b: Binding, lineage: seq<T>, failure: Option<Failure>, read: seq<T>, pages: nat)
    requires IsUlid(b.resource) && Seals(codec) && EffectiveSize(b.pageSize) <= MAX_PAGE_SIZE
    requires ReadOutcome(codec, b, lineage, failure, read, pages)
    ensures failure.None? && read == lineage && pages == PageCount(|lineage|, EffectiveSize(b.pageSize))
  {
    UlidHasNoSeparator(b.resource);
    assert failure.Some? ==>
      failure.value == Invalid || failure.value == Forbidden || failure.value == StorageUnavailable;
  }

  /**
    A client that follows next-cursors from the empty one. It stops after exactly the number
    of pages the length calls for, having read the whole lineage once, in order. Otherwise
    the page size was too large, a cursor could not be sealed, or the resource name holds the
    separator, which refuses every page but the first; no identifier of the service does.
   */
  method ReadAll<T>(codec: Codec, b: Binding, lineage: seq<T>) returns (failure: Option<Failure>, read: seq<T>, pages: nat)
    requires Opens(codec) && |lineage| <= USIZE_MAX
    ensures ReadOutcome(codec, b, lineage, failure, read, pages)
  {
    hide PaginateLineage, Opens, Start;
    var size := EffectiveSize(b.pageSize);
    var cursor := "";
    read, pages := [], 0;
    EmptyCursorContinues(codec, b);
    while true
      invariant |read| <= |lineage| && read == lineage[..|read|] && |read| == pages * size
      invariant pages > 0 ==> |read| < |lineage| && size <= MAX_PAGE_SIZE
      invariant pages == 0 || ':' !in b.resource ==> Continues(codec, b, cursor, |read|)
      invariant pages > 0 && ':' in b.resource ==> pages == 1 && Refused(codec, b, cursor)
      decreases |lineage| - |read|
    {
      var r := PaginateLineage(codec, pages, b, lineage, cursor);
      if size > MAX_PAGE_SIZE || (pages > 0 && ':' in b.resource) {
        TurnedAway(codec, pages, b, lineage, cursor);
      } else {
        PageStep(codec, pages, b, lineage, cursor, |read|);
        if r.Err? { SealFailed(codec, pages, b, lineage, cursor, |read|); }
      }
      if r.Err? { return Some(r.failure), read, pages; }
      read := read + r.value.items;
      pages := pages + 1;
      if r.value.nextCursor == "" {
        LastPage(|lineage|, size, pages);
        return None, read, pages;
      }
      cursor := r.value.nextCursor;
    }
  }

  lemma TurnedAway<T>(codec: Codec, nonce: nat, b: Binding, lineage: seq<T>, cursor: string)
    requires EffectiveSize(b.pageSize) > MAX_PAGE_SIZE || Refused(codec, b, cursor)
    ensures PaginateLineage(codec, nonce, b, lineage, cursor)
         == Err(if EffectiveSize(b.pageSize) > MAX_PAGE_SIZE then Invalid else Forbidden)
  {
  }

  lemma EmptyCursorContinues(codec: Codec, b: Binding)
    ensures Continues(codec, b, "", 0)
  {
  }

  lemma SealFailed<T>(codec: Codec, nonce: nat, b: Binding, lineage: seq<T>, cursor: string, start: nat)
    requires Continues(codec, b, cursor, start) && start <= |lineage|
    requires PaginateLineage(codec, nonce, b, lineage, cursor) == Err(StorageUnavailable)
    ensures start < |lineage| && exists n, text :: codec.seal(n, text).None?
  {
    hide CursorPlaintext, ParseCursor, Start;
  }

  lemma LastPage(length: nat, size: nat, pages: nat)
    requires size > 0 && pages > 0 && (pages - 1) * size <= length <= pages * size
    requires length == 0 ==> pages == 1
    requires pages > 1 ==> (pages - 1) * size < length
    ensures pages == PageCount(length, size)
  {
    if length > 0 {
      var r := length + size - 1 - pages * size;
      assert pages * size == (pages - 1) * size + size;
      assert 0 <= r < size;
      Integers.FloorUnique(length + size - 1, size, pages, r);
    }
  }
}
