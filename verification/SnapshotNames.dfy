/**
 File names of snapshots: what is written, what is read back from a directory listing, and that the
 two agree even for identifiers made of dashes and digits.
 */
module SnapshotNames {
  import opened Prelude

  const REVISION_DIGITS: nat := 20
  const ID_DIGITS: nat := 32

  function Power(base: nat, exponent: nat): nat {
    if exponent == 0 then 1 else base * Power(base, exponent - 1)
  }

  function DigitChar(d: nat): char
    requires d < 16
  {
    "0123456789abcdef"[d]
  }

  function DigitValue(c: char): nat {
    if '0' <= c <= '9' then (c - '0') as int
    else if 'a' <= c <= 'f' then (c - 'a') as int + 10
    else 0
  }

  // Named so that the proofs below need no arithmetic beyond `DivisionStep`.

  function Quotient(n: nat, base: nat): nat
    requires base > 0
  {
    n / base
  }

  function Remainder(n: nat, base: nat): (r: nat)
    requires base > 0
    ensures r < base
  {
    n % base
  }

  function Scaled(n: nat, base: nat): nat { n * base }

  /** Zero-padded to exactly `width` digits. */
  function Numeral(n: nat, base: nat, width: nat): (s: string)
    requires 2 <= base <= 16
    ensures |s| == width
    decreases width
  {
    if width == 0 then []
    else Numeral(Quotient(n, base), base, width - 1) + [DigitChar(Remainder(n, base))]
  }

  function Value(s: string, base: nat): nat {
    if s == [] then 0 else Scaled(Value(s[..|s| - 1], base), base) + DigitValue(s[|s| - 1])
  }

  predicate AllDigits(s: string) { forall c | c in s :: IsAsciiDigit(c) }

  /** Unsigned 64-bit parsing: an optional plus sign and at least one digit, within range. */
  function ParseU64(s: string): Option<u64> {
    var digits := if s != [] && s[0] == '+' then s[1..] else s;
    if digits != [] && AllDigits(digits) && Value(digits, 10) <= U64_MAX
    then Some(Value(digits, 10)) else None
  }

  function RevisionText(revision: u64): string { Numeral(revision, 10, REVISION_DIGITS) }

  // ----- Splitting names -----

  /** Around the last occurrence of `c`. */
  function SplitLast(s: string, c: char): Option<(string, string)> {
    if s == [] then None
    else
      var init, last := s[..|s| - 1], s[|s| - 1];
      if last == c then Some((init, ""))
      else
        match SplitLast(init, c)
        case None => None
        case Some((a, b)) => Some((a, b + [last]))
  }

  /** A file name without its extension; a leading dot starts no extension. */
  function FileStem(name: string): string {
    match SplitLast(name, '.')
    case Some((stem, _)) => if stem == [] then name else stem
    case None => name
  }

  function Extension(name: string): Option<string> {
    match SplitLast(name, '.')
    case Some((stem, extension)) => if stem == [] then None else Some(extension)
    case None => None
  }

  predicate SafeIdentifier(id: string) {
    id != [] && Utf8Length(id) <= 128
    && forall c | c in id :: IsAsciiAlphanumeric(c) || c == '-' || c == '_'
  }

  // ----- Names written -----

  function MetadataName(id: string, revision: u64): string {
    id + "-" + RevisionText(revision) + ".json"
  }

  function RoomIdText(room: u128): string { Numeral(room, 16, ID_DIGITS) }

  function RoomName(room: u128, revision: u64): string {
    RoomIdText(room) + "-" + RevisionText(revision) + ".json"
  }

  function FenceName(revision: u64): string { RevisionText(revision) + ".json" }

  function TemporaryName(name: string, process: string): string { "." + name + "." + process + ".tmp" }

  // ----- Names read -----

  function SnapshotIdentity(name: string): Option<(string, u64)> {
    match SplitLast(FileStem(name), '-')
    case None => None
    case Some((id, revision)) =>
      if |revision| == REVISION_DIGITS && AllDigits(revision) && SafeIdentifier(id)
      then
        match ParseU64(revision)
        case Some(n) => if n == 0 then None else Some((id, n))
        case None => None
      else None
  }

  /** How pruning reads the revision of one room's files. */
  function RoomRevision(room: u128, name: string): Option<u64> {
    var prefix, suffix := RoomIdText(room) + "-", ".json";
    if |name| >= |prefix| && name[..|prefix|] == prefix
    then
      var rest := name[|prefix|..];
      if |rest| >= |suffix| && rest[|rest| - |suffix|..] == suffix
      then ParseU64(rest[..|rest| - |suffix|]) else None
    else None
  }

  function FenceRevision(name: string): Option<u64> {
    var stem := FileStem(name);
    if |stem| == REVISION_DIGITS && AllDigits(stem)
    then
      match ParseU64(stem)
      case Some(n) => if n > 0 then Some(n) else None
      case None => None
    else None
  }

  // ----- Numerals -----

  lemma DigitRoundTrip(d: nat)
    requires d < 16
    ensures DigitValue(DigitChar(d)) == d && DigitChar(d) != '-' && DigitChar(d) != '.' && DigitChar(d) != '+'
    ensures d < 10 ==> IsAsciiDigit(DigitChar(d))
  {
  }

  lemma DivisionStep(n: nat, base: nat, power: nat)
    requires base > 0 && n < base * power
    ensures Quotient(n, base) < power && Scaled(Quotient(n, base), base) + Remainder(n, base) == n
  {
    assert n == n / base * base + n % base;
    TimesMonotone(power, n / base, base);
  }

  lemma TimesMonotone(a: nat, b: nat, c: nat)
    ensures a <= b ==> a * c <= b * c
  {
  }

  lemma ValueSnoc(s: string, c: char, base: nat)
    ensures Value(s + [c], base) == Scaled(Value(s, base), base) + DigitValue(c)
  {
    assert (s + [c])[..|s|] == s;
  }

  lemma NumeralStep(n: nat, base: nat, width: nat)
    requires 2 <= base <= 16 && width > 0
    ensures Numeral(n, base, width)
            == Numeral(Quotient(n, base), base, width - 1) + [DigitChar(Remainder(n, base))]
  {
    hide Quotient, Remainder;
  }

  lemma PowerUnfold(base: nat, width: nat)
    requires width > 0
    ensures Power(base, width) == base * Power(base, width - 1)
  {
  }

  lemma {:induction false} NumeralRoundTrip(n: nat, base: nat, width: nat)
    requires 2 <= base <= 16 && n < Power(base, width)
    ensures Value(Numeral(n, base, width), base) == n
    decreases width
  {
    if width > 0 {
      hide *;
      PowerUnfold(base, width);
      DivisionStep(n, base, Power(base, width - 1));
      var q, d := Quotient(n, base), Remainder(n, base);
      NumeralRoundTrip(q, base, width - 1);
      DigitRoundTrip(d);
      ValueSnoc(Numeral(q, base, width - 1), DigitChar(d), base);
      NumeralStep(n, base, width);
    }
  }

  lemma {:induction false} NumeralChars(n: nat, base: nat, width: nat)
    requires 2 <= base <= 16
    ensures '-' !in Numeral(n, base, width) && '.' !in Numeral(n, base, width)
    ensures base == 10 ==> AllDigits(Numeral(n, base, width))
    decreases width
  {
    if width > 0 {
      hide Quotient, Remainder, Numeral, DigitChar, IsAsciiDigit;
      NumeralStep(n, base, width);
      NumeralChars(Quotient(n, base), base, width - 1);
      DigitRoundTrip(Remainder(n, base));
    }
  }

  lemma {:induction false} PowerStep(base: nat, a: nat, b: nat)
    ensures Power(base, a + b) == Power(base, a) * Power(base, b)
  {
    if a > 0 {
      PowerStep(base, a - 1, b);
      assert base * (Power(base, a - 1) * Power(base, b)) == base * Power(base, a - 1) * Power(base, b);
    }
  }

  /** Twenty decimal digits hold every 64-bit revision, thirty-two hexadecimal ones every identifier. */
  lemma WidthsSuffice()
    ensures Power(10, REVISION_DIGITS) > U64_MAX && Power(16, ID_DIGITS) == U128_MAX + 1
  {
    assert Power(10, 5) == 100_000;
    PowerStep(10, 5, 5);
    PowerStep(10, 10, 10);
    assert Power(16, 4) == 0x1_0000;
    PowerStep(16, 4, 4);
    PowerStep(16, 8, 8);
    PowerStep(16, 16, 16);
  }

  lemma RevisionRoundTrip(revision: u64)
    ensures AllDigits(RevisionText(revision)) && |RevisionText(revision)| == REVISION_DIGITS
    ensures ParseU64(RevisionText(revision)) == Some(revision)
    ensures '-' !in RevisionText(revision) && '.' !in RevisionText(revision)
  {
    hide Numeral, Value, Power;
    WidthsSuffice();
    NumeralRoundTrip(revision, 10, REVISION_DIGITS);
    NumeralChars(revision, 10, REVISION_DIGITS);
    var text := RevisionText(revision);
    assert text[0] in text;
  }

  /** The digits of a number in range determine it, and a text of digits is the numeral of its value. */
  lemma {:induction false} ValueRoundTrip(s: string)
    requires AllDigits(s)
    ensures Numeral(Value(s, 10), 10, |s|) == s
  {
    hide *;
    if s != [] {
      var init, last := s[..|s| - 1], s[|s| - 1];
      assert s == init + [last];
      DigitsSplit(init, last);
      ValueRoundTrip(init);
      DigitCharOfValue(last);
      NumeralSnoc(Value(init, 10), DigitValue(last), |init|);
      ValueSnoc(init, last, 10);
    }
  }

  lemma DigitsSplit(init: string, last: char)
    requires AllDigits(init + [last])
    ensures AllDigits(init) && IsAsciiDigit(last)
  {
    assert forall c :: c in init ==> c in init + [last];
    assert last in init + [last];
  }

  lemma DigitCharOfValue(c: char)
    requires IsAsciiDigit(c)
    ensures DigitValue(c) < 10 && DigitChar(DigitValue(c)) == c
  {
  }

  lemma NumeralSnoc(v: nat, d: nat, width: nat)
    requires d < 10
    ensures Numeral(Scaled(v, 10) + d, 10, width + 1) == Numeral(v, 10, width) + [DigitChar(d)]
  {
    assert (v * 10 + d) / 10 == v && (v * 10 + d) % 10 == d;
  }

  // ----- Splitting -----

  lemma {:induction false} SplitLastAt(a: string, b: string, c: char)
    requires c !in b
    ensures SplitLast(a + [c] + b, c) == Some((a, b))
  {
    var s := a + [c] + b;
    if b == [] {
      assert s[..|s| - 1] == a;
    } else {
      var init, last := b[..|b| - 1], b[|b| - 1];
      assert s[..|s| - 1] == a + [c] + init && s[|s| - 1] == last;
      assert last in b;
      SplitLastAt(a, init, c);
      assert b == init + [last];
    }
  }

  lemma {:induction false} SplitLastParts(s: string, c: char)
    ensures match SplitLast(s, c)
            case Some((a, b)) => s == a + [c] + b && c !in b
            case None => c !in s
  {
    if s != [] {
      var init, last := s[..|s| - 1], s[|s| - 1];
      assert s == init + [last];
      SplitLastParts(init, c);
    }
  }

  lemma StemOf(stem: string, extension: string)
    requires stem != [] && '.' !in extension
    ensures FileStem(stem + "." + extension) == stem && Extension(stem + "." + extension) == Some(extension)
  {
    SplitLastAt(stem, extension, '.');
  }

  // ----- Round trips -----

  /** The identity read from a metadata name is the one it was written for, whatever the identifier. */
  lemma MetadataNameRoundTrip(id: string, revision: u64)
    requires SafeIdentifier(id) && revision > 0
    ensures SnapshotIdentity(MetadataName(id, revision)) == Some((id, revision))
    ensures Extension(MetadataName(id, revision)) == Some("json")
  {
    hide RevisionText, ParseU64, SplitLast, SafeIdentifier;
    RevisionRoundTrip(revision);
    var stem := id + "-" + RevisionText(revision);
    assert MetadataName(id, revision) == stem + "." + "json";
    StemOf(stem, "json");
    SplitLastAt(id, RevisionText(revision), '-');
  }

  /** Only names whose stem was written for an identity are read as that identity. */
  lemma IdentityComesFromTheStem(name: string, id: string, revision: u64)
    requires SnapshotIdentity(name) == Some((id, revision))
    ensures FileStem(name) == id + "-" + RevisionText(revision) && SafeIdentifier(id) && revision > 0
  {
    hide SafeIdentifier, Numeral, Value, SplitLast, FileStem;
    var stem := FileStem(name);
    SplitLastParts(stem, '-');
    var text := SplitLast(stem, '-').value.1;
    assert text[0] in text;
    ValueRoundTrip(text);
  }

  lemma IdentityStartsSafely(name: string)
    ensures SnapshotIdentity(name).Some? ==> FileStem(name) != [] && FileStem(name)[0] != '.'
  {
    hide SnapshotIdentity, FileStem, RevisionText;
    if SnapshotIdentity(name).Some? {
      var (id, revision) := SnapshotIdentity(name).value;
      IdentityComesFromTheStem(name, id, revision);
      assert FileStem(name)[0] == id[0] && id[0] in id;
    }
  }

  /** Unfinished files are neither loaded nor pruned. */
  lemma TemporaryNamesAreInvisible(name: string, process: string)
    ensures Extension(TemporaryName(name, process)) == Some("tmp")
    ensures SnapshotIdentity(TemporaryName(name, process)).None?
    ensures FenceRevision(TemporaryName(name, process)).None?
    ensures forall room: u128 :: RoomRevision(room, TemporaryName(name, process)).None?
  {
    hide SnapshotIdentity, SplitLast, Numeral;
    var t := TemporaryName(name, process);
    var stem := "." + name + "." + process;
    assert t == stem + "." + "tmp";
    StemOf(stem, "tmp");
    assert stem[0] == '.' && stem[0] in stem;
    IdentityStartsSafely(t);
    forall room: u128 ensures RoomRevision(room, t).None? {
      RoomTextStart(room);
      assert t[0] == '.';
      assert |t| > ID_DIGITS ==> t[..ID_DIGITS + 1][0] == '.';
    }
  }

  lemma RoomTextStart(room: u128)
    ensures RoomIdText(room)[0] != '.'
  {
    hide Numeral;
    NumeralChars(room, 16, ID_DIGITS);
    assert RoomIdText(room)[0] in RoomIdText(room);
  }

  lemma RoomTextsDiffer(a: u128, b: u128)
    requires RoomIdText(a) == RoomIdText(b)
    ensures a == b
  {
    hide Numeral, Value, Power;
    WidthsSuffice();
    NumeralRoundTrip(a, 16, ID_DIGITS);
    NumeralRoundTrip(b, 16, ID_DIGITS);
  }

  /** Pruning a room sees exactly that room's files, each at its revision. */
  lemma RoomNameRoundTrip(room: u128, other: u128, revision: u64)
    ensures RoomRevision(room, RoomName(other, revision)) == if room == other then Some(revision) else None
  {
    hide RevisionText, ParseU64, Numeral;
    if room != other && RoomIdText(room) == RoomIdText(other) {
      RoomTextsDiffer(room, other);
    }
    RevisionRoundTrip(revision);
    var name, text := RoomName(other, revision), RevisionText(revision);
    assert name[..ID_DIGITS] == RoomIdText(other);
    assert name[..ID_DIGITS + 1][..ID_DIGITS] == RoomIdText(other);
    var rest := name[ID_DIGITS + 1..];
    assert rest == text + ".json";
    assert rest[..|rest| - 5] == text && rest[|rest| - 5..] == ".json";
  }

  lemma FenceNameRoundTrip(revision: u64)
    ensures FenceRevision(FenceName(revision)) == if revision > 0 then Some(revision) else None
  {
    hide RevisionText, ParseU64, SplitLast;
    RevisionRoundTrip(revision);
    StemOf(RevisionText(revision), "json");
    assert FenceName(revision) == RevisionText(revision) + "." + "json";
  }
}
