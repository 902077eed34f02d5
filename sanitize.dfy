/** `sanitizeBooking`: the adapter that gives every booking received from the
    server an `equipment` list, whatever shape the field arrived in. */
module Sanitize {
  import opened Types
  import opened Text
  import opened Seqs

  /** The `equipment` field as received: an array, a string, or anything else
      (`null`, a number, a missing field, ...). */
  datatype RawEquipment = ArrayValue(items: seq<string>) | StringValue(text: string) | OtherValue

  type RawBooking = BookingOf<RawEquipment>

  predicate NonEmpty(e: string) {
    |e| > 0
  }

  /** The pieces of a comma-separated equipment string: split on ',', each
      trimmed, empty ones dropped. */
  function Pieces(text: string): (r: seq<string>)
    ensures forall e :: e in r ==> e != [] && ',' !in e && IsTrimmed(e)
    ensures |r| <= Occurrences(text, ',') + 1
    ensures forall e :: e != [] ==> multiset(r)[e] == multiset(Map(Split(text, ','), Trim))[e]
    ensures IsSubsequence(r, Map(Split(text, ','), Trim))
  {
    var parts := Split(text, ',');
    var trimmed := Map(parts, Trim);
    TrimmedPartsClean(parts);
    FilterIsSubsequence(trimmed, NonEmpty);
    Filter(trimmed, NonEmpty)
  }

  /** No part is lost: every part between commas whose trim is not blank
      appears, trimmed, among the pieces. */
  lemma PartsKept(text: string, p: string)
    requires p in Split(text, ',') && Trim(p) != []
    ensures Trim(p) in Pieces(text)
  {
    var parts := Split(text, ',');
    var i :| 0 <= i < |parts| && parts[i] == p;
    MapFilterHas(parts, Trim, NonEmpty, i);
  }

  /** Trimming comma-free parts gives trimmed comma-free strings. */
  lemma TrimmedPartsClean(parts: seq<string>)
    requires forall p :: p in parts ==> ',' !in p
    ensures forall e :: e in Map(parts, Trim) ==> ',' !in e && IsTrimmed(e)
  {
    var trimmed := Map(parts, Trim);
    forall e | e in trimmed ensures ',' !in e && IsTrimmed(e) {
      var i :| 0 <= i < |trimmed| && trimmed[i] == e;
      assert parts[i] in parts;
      TrimKeepsAbsent(parts[i], ',');
    }
  }

  /** The `equipmentArray` local of `sanitizeBooking`. */
  function EquipmentArray(raw: RawEquipment): (r: seq<string>)
    ensures raw.ArrayValue? ==> r == raw.items
    ensures raw.StringValue? ==> r == Pieces(raw.text)
    ensures raw.OtherValue? ==> r == []
  {
    match raw
    case ArrayValue(items) => items
    case StringValue(text) => Pieces(text)
    case OtherValue => []
  }

  /** `{ ...booking, equipment: equipmentArray }`. */
  function SanitizeBooking(raw: RawBooking): (b: Booking)
    ensures b.equipment == EquipmentArray(raw.equipment)
    ensures AsReceived(b) == raw.(equipment := ArrayValue(b.equipment))
  {
    BookingOf(raw.id, raw.kind, raw.teacherName, raw.program, raw.classroom, raw.period,
              raw.bookingDate, raw.lessonPlanName, EquipmentArray(raw.equipment), raw.status,
              raw.createdAt)
  }

  /** A sanitised booking as it would look if received again: its list is an array. */
  function AsReceived(b: Booking): RawBooking {
    BookingOf(b.id, b.kind, b.teacherName, b.program, b.classroom, b.period, b.bookingDate,
              b.lessonPlanName, ArrayValue(b.equipment), b.status, b.createdAt)
  }

  /** A booking that already has a list passes through unchanged: the list is
      neither trimmed nor de-duplicated. */
  lemma SanitizeKeepsArrays(b: Booking)
    ensures SanitizeBooking(AsReceived(b)) == b
  {
  }

  /** Sanitising a sanitised booking changes nothing. */
  lemma SanitizeIdempotent(raw: RawBooking)
    ensures SanitizeBooking(AsReceived(SanitizeBooking(raw))) == SanitizeBooking(raw)
  {
    SanitizeKeepsArrays(SanitizeBooking(raw));
  }

  /** Each piece of an equipment string is a trimmed comma-free part of it,
      and joining the split parts with ',' gives back the string. */
  lemma {:induction false} PiecesComeFromParts(text: string)
    ensures forall e :: e in Pieces(text) ==> exists p :: p in Split(text, ',') && Trim(p) == e
    ensures Join(Split(text, ','), ',') == text
  {
    JoinSplit(text, ',');
    var parts := Split(text, ',');
    var trimmed := Map(parts, Trim);
    forall e | e in Pieces(text) ensures exists p :: p in parts && Trim(p) == e {
      assert e in trimmed;
      var i :| 0 <= i < |trimmed| && trimmed[i] == e;
      assert parts[i] in parts;
    }
  }

  /** Duplicates survive: a string such as "Projector, Speaker,Projector" (pieces
      `a`, `b`, `a`, with whitespace `pad` before `b`) gives all three pieces. */
  lemma KeepsDuplicates(a: string, b: string, pad: string)
    requires a != [] && b != [] && IsTrimmed(a) && IsTrimmed(b)
    requires ',' !in a && ',' !in b
    requires forall k :: 0 <= k < |pad| ==> IsWhitespace(pad[k])
    ensures EquipmentArray(StringValue(a + [','] + (pad + b) + [','] + a)) == [a, b, a]
  {
    PaddedPiece(pad, b);
    DuplicatePieces(a, pad + b, b);
  }

  lemma PaddedPiece(pad: string, b: string)
    requires IsTrimmed(b) && ',' !in b
    requires forall k :: 0 <= k < |pad| ==> IsWhitespace(pad[k])
    ensures Trim(pad + b) == b && ',' !in pad + b
  {
    TrimLeadingPad(pad, b);
    assert ',' !in pad;
  }

  lemma DuplicatePieces(a: string, m: string, b: string)
    requires a != [] && b != [] && IsTrimmed(a) && ',' !in a && ',' !in m && Trim(m) == b
    ensures Pieces(a + [','] + m + [','] + a) == [a, b, a]
  {
    ThreeParts(a, m);
    TrimFixedPoints(a);
    TrimmedThree(a, m, b);
    KeptThree(a, b);
  }

  lemma TrimmedThree(a: string, m: string, b: string)
    requires Trim(a) == a && Trim(m) == b
    ensures Map([a, m, a], Trim) == [a, b, a]
  {
    var parts := [a, m, a];
    var r := Map(parts, Trim);
    assert r[0] == Trim(parts[0]) && r[1] == Trim(parts[1]) && r[2] == Trim(parts[2]);
  }

  lemma KeptThree(a: string, b: string)
    requires a != [] && b != []
    ensures Filter([a, b, a], NonEmpty) == [a, b, a]
  {
    FilterKeepsAll([a, b, a], NonEmpty);
  }

  lemma ThreeParts(a: string, m: string)
    requires ',' !in a && ',' !in m
    ensures Split(a + [','] + m + [','] + a, ',') == [a, m, a]
  {
    assert a + [','] + m + [','] + a == a + [','] + (m + [','] + a);
    SplitPiece(a, ',', m + [','] + a);
    SplitPiece(m, ',', a);
    SplitWhole(a, ',');
  }
}
