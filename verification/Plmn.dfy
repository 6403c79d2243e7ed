/** PLMN lists of `modem_sim.c`: `encode_plmn`, `get_plmn` and `get_plmns` with their nibble order, and the
    round trip between them. Strings stand without their terminating NUL. */
module Plmn {
  import opened Bytes

  const PLMN_SIZE := 7 // MODEM_PLMN_SIZE: 6 digits and the NUL
  const FILLER: string := "FFFFFF"
  const SUCCESS: string := "144,0,\""

  predicate HexDigit(c: char) { '0' <= c <= '9' || 'A' <= c <= 'F' }

  predicate DecimalPlmn(plmn: string) {
    (|plmn| == 5 || |plmn| == 6) && forall c :: c in plmn ==> '0' <= c <= '9'
  }

  /** `strspn` with the hexadecimal digits. */
  function Span(s: string): (n: nat)
    ensures n <= |s|
  {
    if s == "" || !HexDigit(s[0]) then 0 else 1 + Span(s[1..])
  }

  /** The 6 nibbles of a PLMN with 5 or 6 digits. */
  function Nibbles(plmn: string): (s: string)
    requires |plmn| >= 5
    ensures |s| == 6
  {
    if Span(plmn) == 6 then [plmn[1], plmn[0], plmn[3], plmn[2], plmn[5], plmn[4]]
    else [plmn[1], plmn[0], 'F', plmn[2], plmn[4], plmn[3]]
  }

  /** `encode_plmn` into `encoded` from `at` on; returns the number of characters written. */
  method EncodePlmn(plmn: string, encoded: array<char>, at: nat) returns (n: nat)
    requires at <= encoded.Length
    modifies encoded
    ensures n == if Span(plmn) in {5, 6} && encoded.Length - at > 6 then 6 else 0
    ensures n == 6 ==> encoded[..] == old(encoded[..at]) + Nibbles(plmn) + ['\0'] + old(encoded[at + 7..])
    ensures n == 0 ==> encoded[..] == old(encoded[..])
  {
    var l := Span(plmn);
    if (5 == l || 6 == l) && encoded.Length - at > 6 {
      encoded[at] := plmn[1];
      encoded[at + 1] := plmn[0];
      encoded[at + 3] := plmn[2];
      if 6 == l {
        encoded[at + 2] := plmn[3];
        encoded[at + 4] := plmn[5];
        encoded[at + 5] := plmn[4];
      } else {
        encoded[at + 2] := 'F';
        encoded[at + 4] := plmn[4];
        encoded[at + 5] := plmn[3];
      }
      encoded[at + 6] := '\0';
      return 6;
    }
    return 0;
  }

  /** `append_plmn`. */
  function AppendDigit(plmn: string, digit: char): string { if digit != 'F' then plmn + [digit] else plmn }

  /** `get_plmn`: the digits of 6 nibbles, nothing for a filler or at the end of the list. */
  function GetPlmn(s: string): (plmn: string)
    ensures |plmn| <= 6
  {
    if |s| < 6 || s[0] == '"' || s[..6] == FILLER then ""
    else Digits(s[1], s[0], s[3], s[2], s[5], s[4])
  }

  function Digits(a: char, b: char, c: char, d: char, e: char, f: char): (plmn: string)
    ensures |plmn| <= 6
  {
    AppendDigit(AppendDigit(AppendDigit(AppendDigit(AppendDigit(AppendDigit("", a), b), c), d), e), f)
  }

  function Joined(entries: seq<string>): string {
    if entries == [] then "" else if |entries| == 1 then entries[0] else entries[0] + "," + Joined(entries[1..])
  }

  function WithCommas(entries: seq<string>): string {
    if entries == [] then "" else entries[0] + "," + WithCommas(entries[1..])
  }

  /** Entries that fit the space left, 7 characters for each test. */
  function Fitting(list: string, space: nat): (r: seq<string>)
    decreases |list|
  {
    if |list| < 6 || list[0] == '"' || space < PLMN_SIZE then []
    else if GetPlmn(list) == "" then Fitting(list[6..], space)
    else [GetPlmn(list)] + Fitting(list[6..], space - |GetPlmn(list)| - 1)
  }

  /** `get_plmns`: walks the response behind its header and writes the entries, comma separated. */
  method GetPlmns(response: string, size: nat) returns (result: nat, plmns: string)
    requires forall c :: c in response ==> c != '\0'
    ensures |response| < 7 || response[..7] != SUCCESS ==> result == 0 && plmns == ""
    ensures |response| >= 7 && response[..7] == SUCCESS ==>
      var entries := Fitting(response[7..], size);
      plmns == Joined(entries) && result == |WithCommas(entries)|
  {
    if |response| < 7 || response[..7] != SUCCESS {
      return 0, "";
    }
    var list := response[7..];
    ghost var entries;
    result, plmns, entries := CopyEntries(list, size);
    DropComma(entries);
    if result > 0 {
      plmns := plmns[..result - 1];
    }
  }

  /** The loop of `get_plmns`: every entry is followed by a comma. */
  method CopyEntries(list: string, size: nat) returns (result: nat, text: string, ghost entries: seq<string>)
    ensures entries == Fitting(list, size) && text == WithCommas(entries) && result == |text|
  {
    hide GetPlmn, WithCommas, Fitting;
    NoEntries();
    var pos: nat, space: nat := 0, size;
    text, entries := "", [];
    while pos + 6 <= |list| && list[pos] != '"' && space >= PLMN_SIZE
      invariant pos <= |list| && text == WithCommas(entries)
      invariant Fitting(list, size) == entries + Fitting(list[pos..], space)
      decreases |list| - pos
    {
      assert list[pos..][0] == list[pos] && list[pos..][6..] == list[pos + 6..];
      FittingStep(list[pos..], space);
      var plmn := GetPlmn(list[pos..]);
      if plmn != "" {
        CommasSnoc(entries, plmn);
        text := text + plmn + ",";
        space := space - |plmn| - 1;
        entries := entries + [plmn];
      }
      pos := pos + 6;
    }
    FittingStep(list[pos..], space);
    result := |text|;
  }

  lemma NoEntries()
    ensures WithCommas([]) == ""
  {
  }

  lemma FittingStep(list: string, space: nat)
    ensures |list| < 6 || list[0] == '"' || space < PLMN_SIZE ==> Fitting(list, space) == []
    ensures |list| >= 6 && list[0] != '"' && space >= PLMN_SIZE ==>
      var plmn := GetPlmn(list);
      Fitting(list, space) == if plmn == "" then Fitting(list[6..], space)
                              else [plmn] + Fitting(list[6..], space - |plmn| - 1)
  {
  }

  lemma {:induction false} CommasSnoc(entries: seq<string>, e: string)
    ensures WithCommas(entries + [e]) == WithCommas(entries) + e + ","
  {
    if entries == [] {
      assert [e][1..] == [];
    } else {
      assert (entries + [e])[1..] == entries[1..] + [e];
      CommasSnoc(entries[1..], e);
    }
  }

  lemma {:induction false} DropComma(entries: seq<string>)
    ensures entries == [] ==> WithCommas(entries) == "" == Joined(entries)
    ensures entries != [] ==> WithCommas(entries) == Joined(entries) + ","
  {
    if |entries| == 1 {
      assert entries[1..] == [];
    } else if |entries| > 1 {
      DropComma(entries[1..]);
    }
  }

  // ----- round trip

  /** An entry of a list to encode: a PLMN or a filler. */
  datatype Slot = Number(plmn: string) | Filler

  function EncodeSlot(s: Slot): string
    requires s.Number? ==> |s.plmn| >= 5
  {
    if s.Number? then Nibbles(s.plmn) else FILLER
  }

  ghost predicate ValidSlots(slots: seq<Slot>) { forall s :: s in slots && s.Number? ==> DecimalPlmn(s.plmn) }

  function EncodeList(slots: seq<Slot>): string
    requires forall s :: s in slots && s.Number? ==> |s.plmn| >= 5
  {
    if slots == [] then "" else EncodeSlot(slots[0]) + EncodeList(slots[1..])
  }

  function Numbers(slots: seq<Slot>): seq<string> {
    if slots == [] then []
    else (if slots[0].Number? then [slots[0].plmn] else []) + Numbers(slots[1..])
  }

  lemma {:induction false} SpanAll(s: string)
    requires forall c :: c in s ==> HexDigit(c)
    ensures Span(s) == |s|
  {
    if s != "" {
      assert s[0] in s && forall c :: c in s[1..] ==> c in s;
      SpanAll(s[1..]);
    }
  }

  lemma SixDigits(p: string)
    requires |p| == 6 && 'F' !in p
    ensures Digits(p[0], p[1], p[2], p[3], p[4], p[5]) == p
  {
  }

  lemma FiveDigits(p: string)
    requires |p| == 5 && 'F' !in p
    ensures Digits(p[0], p[1], p[2], 'F', p[3], p[4]) == p
  {
  }

  /** Encoding and decoding one PLMN gives it back, whatever follows in the list. */
  lemma PlmnRoundTrip(plmn: string, rest: string)
    requires DecimalPlmn(plmn)
    ensures Span(plmn) == |plmn| && GetPlmn(Nibbles(plmn) + rest) == plmn
    ensures Nibbles(plmn)[0] != '"'
  {
    hide Span, Digits;
    SpanAll(plmn);
    var s := Nibbles(plmn) + rest;
    assert plmn[0] in plmn && plmn[1] in plmn;
    assert s[..6][0] == plmn[1] != 'F';
    if |plmn| == 6 { SixDigits(plmn); } else { FiveDigits(plmn); }
  }

  /** The list of encoded PLMNs, with fillers anywhere, decodes to the numbers; 7 characters per entry
      always have room. */
  lemma {:induction false} ListRoundTrip(slots: seq<Slot>, tail: string, space: nat)
    requires ValidSlots(slots) && (tail == "" || tail[0] == '"')
    requires space >= PLMN_SIZE * |slots|
    ensures Fitting(EncodeList(slots) + tail, space) == Numbers(slots)
  {
    hide Fitting, GetPlmn, Nibbles;
    var list := EncodeList(slots) + tail;
    FittingStep(list, space);
    if slots == [] {
      assert list == tail;
    } else {
      var s, rest := slots[0], slots[1..];
      assert s in slots && forall x :: x in rest ==> x in slots;
      var more := EncodeList(rest) + tail;
      assert list == EncodeSlot(s) + more && list[6..] == more && list[0] == EncodeSlot(s)[0];
      if s.Number? {
        PlmnRoundTrip(s.plmn, more);
        ListRoundTrip(rest, tail, space - |s.plmn| - 1);
      } else {
        FillerSkipped(more);
        ListRoundTrip(rest, tail, space);
      }
    }
  }

  /** The entries and their commas never need more than the space, so neither do the joined entries and
      their NUL. */
  lemma {:induction false} FittingFits(list: string, space: nat)
    ensures |WithCommas(Fitting(list, space))| <= space
    ensures space > 0 ==> |Joined(Fitting(list, space))| + 1 <= space
    decreases |list|
  {
    hide GetPlmn;
    FittingStep(list, space);
    if |list| >= 6 && list[0] != '"' && space >= PLMN_SIZE {
      var plmn := GetPlmn(list);
      FittingFits(list[6..], if plmn == "" then space else space - |plmn| - 1);
    }
    DropComma(Fitting(list, space));
  }

  /** With any space the entries are the first numbers of the list, and as many as it takes to leave less than
      7 characters. */
  lemma {:induction false} FirstNumbersFit(slots: seq<Slot>, tail: string, space: nat)
    requires ValidSlots(slots) && (tail == "" || tail[0] == '"')
    ensures
      var entries := Fitting(EncodeList(slots) + tail, space);
      entries <= Numbers(slots) && (entries != Numbers(slots) ==> space < |WithCommas(entries)| + 7)
  {
    hide Fitting, GetPlmn, Nibbles;
    var list := EncodeList(slots) + tail;
    FittingStep(list, space);
    if slots == [] {
      assert list == tail;
    } else if space >= PLMN_SIZE {
      var s, rest := slots[0], slots[1..];
      assert s in slots && forall x :: x in rest ==> x in slots;
      var more := EncodeList(rest) + tail;
      assert list == EncodeSlot(s) + more && list[6..] == more && list[0] == EncodeSlot(s)[0];
      if s.Number? {
        PlmnRoundTrip(s.plmn, more);
        FirstNumbersFit(rest, tail, space - |s.plmn| - 1);
        assert Fitting(list, space)[1..] == Fitting(more, space - |s.plmn| - 1);
      } else {
        FillerSkipped(more);
        FirstNumbersFit(rest, tail, space);
      }
    }
  }

  /** The nibbles of section 10.5.1.13 of 3GPP TS 24.008, the high one of each octet first: country code digits
      2 and 1, network code digit 3 (F without) and country code digit 3, network code digits 2 and 1. */
  function StandardNibbles(mcc: string, mnc: string): string
    requires |mcc| == 3 && 2 <= |mnc| <= 3
  {
    [mcc[1], mcc[0], if |mnc| == 3 then mnc[2] else 'F', mcc[2], mnc[1], mnc[0]]
  }

  /** The encoding conforms exactly for network codes of 2 digits and of 3 equal digits. */
  lemma NibblesConformIff(plmn: string)
    requires DecimalPlmn(plmn)
    ensures Nibbles(plmn) == StandardNibbles(plmn[..3], plmn[3..]) <==>
      |plmn| == 5 || plmn[3] == plmn[4] == plmn[5]
  {
    hide Span;
    SpanAll(plmn);
    var code, standard := Nibbles(plmn), StandardNibbles(plmn[..3], plmn[3..]);
    assert code == standard <==> forall i :: 0 <= i < 6 ==> code[i] == standard[i];
    assert code[2] == standard[2] && code[4] == standard[4] && code[5] == standard[5] <==> code == standard;
  }

  lemma FillerSkipped(rest: string)
    ensures GetPlmn(FILLER + rest) == ""
  {
    assert (FILLER + rest)[..6] == FILLER;
  }

  /** `get_plmns` on the response of a read back list gives the comma-joined numbers. */
  lemma ReadBack(slots: seq<Slot>, size: nat)
    requires ValidSlots(slots) && size >= PLMN_SIZE * |slots|
    ensures
      var response := SUCCESS + EncodeList(slots) + "\"";
      && response[..7] == SUCCESS
      && Joined(Fitting(response[7..], size)) == Joined(Numbers(slots))
  {
    var response := SUCCESS + EncodeList(slots) + "\"";
    assert response[7..] == EncodeList(slots) + "\"";
    ListRoundTrip(slots, "\"", size);
  }
}
