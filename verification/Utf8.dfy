/** The hand-written UTF-8 scanner behind the printable-text test, against section 3 of RFC 3629. */
module Utf8 {
  import opened Counting
  import opened Scanning

  // What one loop iteration counts: a byte, or a 16-bit wchar_t.
  datatype Unit = Narrow(byte: bv8) | Wide(w: bv16)

  // ---------- RFC 3629 ----------

  predicate Scalar(cp: bv32) {
    cp <= 0x10FFFF && !(0xD800 <= cp <= 0xDFFF)
  }

  predicate Scalars(cps: seq<bv32>) {
    forall cp :: cp in cps ==> Scalar(cp)
  }

  function Encode(cp: bv32): (bytes: seq<bv8>)
    requires Scalar(cp)
    ensures 1 <= |bytes| <= 4
  {
    if cp < 0x80 then [cp as bv8]
    else if cp < 0x800 then [(0xC0 | (cp >> 6)) as bv8, Trailing(cp)]
    else if cp < 0x10000 then [(0xE0 | (cp >> 12)) as bv8, Trailing(cp >> 6), Trailing(cp)]
    else [(0xF0 | (cp >> 18)) as bv8, Trailing(cp >> 12), Trailing(cp >> 6), Trailing(cp)]
  }

  function Trailing(v: bv32): bv8 {
    (0x80 | (v & 0x3F)) as bv8
  }

  function Encodings(cps: seq<bv32>): (words: seq<seq<bv8>>)
    requires Scalars(cps)
    ensures |words| == |cps| && forall i :: 0 <= i < |cps| ==> words[i] == Encode(cps[i])
  {
    seq(|cps|, i requires 0 <= i < |cps| => Encode(cps[i]))
  }

  function EncodeAll(cps: seq<bv32>): seq<bv8>
    requires Scalars(cps)
  {
    Joined(Encodings(cps))
  }

  // The code point itself, or what is left of it in 16 bits.
  function UnitOf(cp: bv32): Unit {
    if cp < 0x80 then Narrow(cp as bv8) else Wide(Low16(cp))
  }

  function UnitsOf(cps: seq<bv32>): (us: seq<Unit>)
    ensures |us| == |cps| && forall i :: 0 <= i < |cps| ==> us[i] == UnitOf(cps[i])
  {
    seq(|cps|, i requires 0 <= i < |cps| => UnitOf(cps[i]))
  }

  // ---------- the scanner ----------

  function Low16(v: bv32): bv16 {
    (v & 0xFFFF) as bv16
  }

  // By how much an iteration on the leading byte c advances.
  function Stride(c: bv8): nat {
    if c < 0x80 then 1
    else if c & 0xE0 == 0xC0 then 2
    else if c & 0xF0 == 0xE0 then 3
    else if c & 0xF8 == 0xF0 then 4
    else 1
  }

  function Join2(a: bv8, b: bv8): bv32 {
    ((a as bv32 & 0x1F) << 6) | (b as bv32 & 0x3F)
  }

  function Join3(a: bv8, b: bv8, c: bv8): bv32 {
    ((a as bv32 & 0x0F) << 12) | ((b as bv32 & 0x3F) << 6) | (c as bv32 & 0x3F)
  }

  function Join4(a: bv8, b: bv8, c: bv8, d: bv8): bv32 {
    ((a as bv32 & 0x07) << 18) | ((b as bv32 & 0x3F) << 12) | ((c as bv32 & 0x3F) << 6) | (d as bv32 & 0x3F)
  }

  // What an iteration at i counts: nothing for a truncated sequence or an invalid byte.
  function Counted(buffer: seq<bv8>, i: nat): (us: seq<Unit>)
    requires i < |buffer|
    ensures |us| <= 1
  {
    var c := buffer[i];
    if c < 0x80 then [Narrow(c)]
    else if c & 0xE0 == 0xC0 then
      if i + 1 < |buffer| then [Wide(Low16(Join2(c, buffer[i + 1])))] else []
    else if c & 0xF0 == 0xE0 then
      if i + 2 < |buffer| then [Wide(Low16(Join3(c, buffer[i + 1], buffer[i + 2])))] else []
    else if c & 0xF8 == 0xF0 then
      if i + 3 < |buffer| then [Wide(Low16(Join4(c, buffer[i + 1], buffer[i + 2], buffer[i + 3])))] else []
    else []
  }

  // An iteration as a visit of the scanning loop.
  function Visit(buffer: seq<bv8>, i: nat): (r: (nat, seq<Unit>))
    ensures |r.1| <= 1
  {
    if i < |buffer| then (Stride(buffer[i]) - 1, Counted(buffer, i)) else (0, [])
  }

  // Everything counted from the start.
  function Scan(buffer: seq<bv8>): seq<Unit> {
    Walk(Visit, buffer, 0)
  }

  // No more characters are counted than there are bytes.
  lemma ScanBound(buffer: seq<bv8>)
    ensures |Scan(buffer)| <= |buffer|
  {
    WalkBound(Visit, buffer, 0);
  }

  function Printable(narrow: bv8 -> bool, wide: bv16 -> bool, u: Unit): bool {
    match u
    case Narrow(b) => narrow(b)
    case Wide(w) => wide(w)
  }

  function CountPrintable(narrow: bv8 -> bool, wide: bv16 -> bool, us: seq<Unit>): (n: nat)
    ensures n <= |us|
  {
    if us == [] then 0
    else CountPrintable(narrow, wide, us[..|us| - 1]) + (if Printable(narrow, wide, us[|us| - 1]) then 1 else 0)
  }

  // What is counted as printable: the bytes that pass the test for bytes and the wide characters that pass theirs.
  lemma {:induction false} PrintableTrues(narrow: bv8 -> bool, wide: bv16 -> bool, us: seq<Unit>, n: nat,
                                          marks: seq<bool>)
    requires n <= |us| == |marks|
    requires forall i :: 0 <= i < |us| ==>
               marks[i] == match us[i] case Narrow(b) => narrow(b) case Wide(w) => wide(w)
    ensures CountPrintable(narrow, wide, us[..n]) == Trues(marks, n)
  {
    if n > 0 {
      PrintableTrues(narrow, wide, us, n - 1, marks);
      assert us[..n][..n - 1] == us[..n - 1];
    }
  }

  lemma PrintableMeans(narrow: bv8 -> bool, wide: bv16 -> bool, us: seq<Unit>)
    ensures CountPrintable(narrow, wide, us) ==
            |set i | 0 <= i < |us| && match us[i] case Narrow(b) => narrow(b) case Wide(w) => wide(w)|
  {
    var marks := seq(|us|, i requires 0 <= i < |us| => match us[i] case Narrow(b) => narrow(b) case Wide(w) => wide(w));
    PrintableTrues(narrow, wide, us, |us|, marks);
    TruesCounted(marks, |us|);
    assert us[..|us|] == us;
    assert (set i | 0 <= i < |us| && match us[i] case Narrow(b) => narrow(b) case Wide(w) => wide(w)) ==
           set i | 0 <= i < |us| && marks[i];
  }

  // support.h's integer test, and the ratio it stands for.
  predicate BelowTextThreshold(part: nat, total: nat) {
    part <= total * 97 / 100
  }

  lemma ThresholdIsRatio(part: nat, total: nat)
    ensures !BelowTextThreshold(part, total) <==> 100 * part > 97 * total
  {}

  // One iteration at position i. narrow and wide stand for isprint-or-isspace and iswprint-or-iswspace.
  method Iterate(buffer: seq<bv8>, i: nat, narrow: bv8 -> bool, wide: bv16 -> bool, total0: nat, printable0: nat)
    returns (next: nat, total: nat, printable: nat)
    requires i < |buffer|
    ensures next == i + Stride(buffer[i]) && total == total0 + |Counted(buffer, i)|
    ensures printable == printable0 +
              (if Counted(buffer, i) != [] && Printable(narrow, wide, Counted(buffer, i)[0]) then 1 else 0)
  {
    total, printable := total0, printable0;
    var c := buffer[i];
    if c < 0x80 {
      total := total + 1;
      if narrow(c) {
        printable := printable + 1;
      }
      next := i + 1;
    } else if c & 0xE0 == 0xC0 {
      if i + 1 < |buffer| {
        var wchar := Low16(Join2(c, buffer[i + 1]));
        total := total + 1;
        if wide(wchar) {
          printable := printable + 1;
        }
      }
      next := i + 2;
    } else if c & 0xF0 == 0xE0 {
      if i + 2 < |buffer| {
        var wchar := Low16(Join3(c, buffer[i + 1], buffer[i + 2]));
        total := total + 1;
        if wide(wchar) {
          printable := printable + 1;
        }
      }
      next := i + 3;
    } else if c & 0xF8 == 0xF0 {
      if i + 3 < |buffer| {
        var wchar := Low16(Join4(c, buffer[i + 1], buffer[i + 2], buffer[i + 3]));
        total := total + 1;
        if wide(wchar) {
          printable := printable + 1;
        }
      }
      next := i + 4;
    } else {
      next := i + 1;
    }
  }

  lemma CountOneMore(narrow: bv8 -> bool, wide: bv16 -> bool, seen: seq<Unit>, us: seq<Unit>)
    requires |us| <= 1
    ensures CountPrintable(narrow, wide, seen + us) ==
            CountPrintable(narrow, wide, seen) + (if us != [] && Printable(narrow, wide, us[0]) then 1 else 0)
  {
    if us == [] {
      assert seen + us == seen;
    } else {
      assert (seen + us)[..|seen|] == seen;
    }
  }

  // How far the scan has come at position i.
  ghost predicate Scanned(visit: (seq<bv8>, nat) -> (nat, seq<Unit>), buffer: seq<bv8>, narrow: bv8 -> bool,
                          wide: bv16 -> bool, i: nat, seen: seq<Unit>, total: nat, printable: nat) {
    && seen + Walk(visit, buffer, i) == Walk(visit, buffer, 0)
    && total == |seen| && printable == CountPrintable(narrow, wide, seen)
  }

  lemma ScannedStep(visit: (seq<bv8>, nat) -> (nat, seq<Unit>), buffer: seq<bv8>, narrow: bv8 -> bool,
                    wide: bv16 -> bool, i: nat, seen: seq<Unit>, total: nat, printable: nat)
    requires i < |buffer| && Scanned(visit, buffer, narrow, wide, i, seen, total, printable)
    requires |visit(buffer, i).1| <= 1
    ensures var (more, us) := visit(buffer, i);
            Scanned(visit, buffer, narrow, wide, i + 1 + more, seen + us, total + |us|,
                    printable + (if us != [] && Printable(narrow, wide, us[0]) then 1 else 0))
  {
    WalkOn(visit, buffer, i, seen);
    CountOneMore(narrow, wide, seen, visit(buffer, i).1);
  }

  // The loop over the buffer.
  method CountChars(buffer: seq<bv8>, narrow: bv8 -> bool, wide: bv16 -> bool)
    returns (totalChars: nat, printableChars: nat)
    ensures totalChars == |Scan(buffer)| && printableChars == CountPrintable(narrow, wide, Scan(buffer))
  {
    printableChars, totalChars := 0, 0;
    var i := 0;
    ghost var seen: seq<Unit> := [];
    while i < |buffer|
      invariant Scanned(Visit, buffer, narrow, wide, i, seen, totalChars, printableChars)
      decreases |buffer| - i
    {
      ScannedStep(Visit, buffer, narrow, wide, i, seen, totalChars, printableChars);
      seen := seen + Counted(buffer, i);
      i, totalChars, printableChars := Iterate(buffer, i, narrow, wide, totalChars, printableChars);
    }
    assert seen + [] == seen;
  }

  method CheckPrintableUTF8(buffer: seq<bv8>, narrow: bv8 -> bool, wide: bv16 -> bool) returns (ok: bool)
    ensures buffer == [] ==> ok
    ensures buffer != [] ==>
      var us := Scan(buffer);
      ok <==> us != [] && 100 * CountPrintable(narrow, wide, us) > 97 * |us|
    ensures forall cps :: cps != [] && IsTextOf(buffer, cps) ==>
              (ok <==> 100 * |Passing(narrow, wide, cps)| > 97 * |cps|)
    ensures forall cps :: cps != [] && IsTextOf(buffer, cps) && AllPass(narrow, wide, cps) ==> ok
    ensures forall cps :: cps != [] && IsTextOf(buffer, cps) && NonePasses(narrow, wide, cps) ==> !ok
  {
    AllTexts(buffer, narrow, wide);
    if |buffer| == 0 {
      return true;
    }
    var totalChars, printableChars := CountChars(buffer, narrow, wide);
    if totalChars == 0 {
      return false;
    }
    ThresholdIsRatio(printableChars, totalChars);
    return !BelowTextThreshold(printableChars, totalChars);
  }

  // ---------- round trip ----------

  lemma Bits2(cp: bv32)
    requires 0x80 <= cp < 0x800
    ensures var a, b := (0xC0 | (cp >> 6)) as bv8, Trailing(cp);
            a >= 0x80 && a & 0xE0 == 0xC0 && Join2(a, b) == cp
  {}

  lemma Bits3(cp: bv32)
    requires 0x800 <= cp < 0x10000
    ensures var a, b, c := (0xE0 | (cp >> 12)) as bv8, Trailing(cp >> 6), Trailing(cp);
            a >= 0x80 && a & 0xE0 != 0xC0 && a & 0xF0 == 0xE0 && Join3(a, b, c) == cp
  {}

  lemma Bits4(cp: bv32)
    requires 0x10000 <= cp <= 0x10FFFF
    ensures var a, b, c, d := (0xF0 | (cp >> 18)) as bv8, Trailing(cp >> 12), Trailing(cp >> 6), Trailing(cp);
            a >= 0x80 && a & 0xE0 != 0xC0 && a & 0xF0 != 0xE0 && a & 0xF8 == 0xF0 && Join4(a, b, c, d) == cp
  {}

  // Reading the bytes of one code point back, wherever they stand in a buffer.
  lemma StepOver(buffer: seq<bv8>, i: nat, cp: bv32)
    requires Scalar(cp) && i + |Encode(cp)| <= |buffer|
    requires forall k :: 0 <= k < |Encode(cp)| ==> buffer[i + k] == Encode(cp)[k]
    ensures Stride(buffer[i]) == |Encode(cp)| && Counted(buffer, i) == [UnitOf(cp)]
  {
    var bytes := Encode(cp);
    assert buffer[i + 0] == bytes[0];
    if cp < 0x80 {
    } else if cp < 0x800 {
      Bits2(cp);
      assert buffer[i + 1] == bytes[1];
    } else if cp < 0x10000 {
      Bits3(cp);
      assert buffer[i + 1] == bytes[1] && buffer[i + 2] == bytes[2];
    } else {
      Bits4(cp);
      assert buffer[i + 1] == bytes[1] && buffer[i + 2] == bytes[2] && buffer[i + 3] == bytes[3];
    }
  }

  lemma EncodedTaken(before: seq<bv8>, cp: bv32, after: seq<bv8>)
    requires Scalar(cp)
    ensures TakesIn(Visit, before, Encode(cp), after, UnitOf(cp))
  {
    var buffer, i := before + Encode(cp) + after, |before|;
    assert forall k :: 0 <= k < |Encode(cp)| ==> buffer[i + k] == Encode(cp)[k];
    StepOver(buffer, i, cp);
    assert Visit(buffer, i) == (Stride(buffer[i]) - 1, Counted(buffer, i));
  }

  // The scan takes the bytes of each code point whole and makes its character of them.
  lemma TextTaken(cps: seq<bv32>)
    requires Scalars(cps)
    ensures forall k :: 0 <= k < |cps| ==> Takes(Visit, Encodings(cps)[k], UnitsOf(cps)[k])
  {
    forall k | 0 <= k < |cps|
      ensures Takes(Visit, Encodings(cps)[k], UnitsOf(cps)[k])
    {
      forall before, after
        ensures TakesIn(Visit, before, Encodings(cps)[k], after, UnitsOf(cps)[k])
      {
        EncodedTaken(before, cps[k], after);
      }
    }
  }

  // On encoded text the scan stops at the start of every code point and nowhere else, counts one character for
  // each, and rebuilds it.
  lemma RoundTrip(cps: seq<bv32>)
    requires Scalars(cps)
    ensures Scan(EncodeAll(cps)) == UnitsOf(cps)
    ensures Stops(Visit, EncodeAll(cps), 0) == Starts(Encodings(cps), 0)
  {
    TextTaken(cps);
    WalkWords(Visit, [], Encodings(cps), [], UnitsOf(cps));
    assert [] + EncodeAll(cps) + [] == EncodeAll(cps) == [] + EncodeAll(cps);
  }

  function CodeOf(u: Unit): bv32 {
    match u
    case Narrow(b) => b as bv32
    case Wide(w) => w as bv32
  }

  // Sixteen bits hold the code point exactly when it has no four-byte form.
  lemma RebuiltExactly(cp: bv32)
    requires Scalar(cp)
    ensures CodeOf(UnitOf(cp)) == cp <==> cp < 0x10000
    ensures CodeOf(UnitOf(cp)) == cp & 0xFFFF
  {}

  // Text without four-byte forms comes back whole.
  lemma TextRebuilt(cps: seq<bv32>, i: nat)
    requires Scalars(cps) && i < |cps|
    ensures |Scan(EncodeAll(cps))| == |cps|
    ensures CodeOf(Scan(EncodeAll(cps))[i]) == cps[i] <==> cps[i] < 0x10000
  {
    RoundTrip(cps);
    RebuiltExactly(cps[i]);
  }

  // ---------- bytes that are no text ----------

  // How far an iteration advances, by the range the leading byte lies in.
  lemma StrideMeans(c: bv8)
    ensures c < 0xC0 ==> Stride(c) == 1
    ensures 0xC0 <= c < 0xE0 ==> Stride(c) == 2
    ensures 0xE0 <= c < 0xF0 ==> Stride(c) == 3
    ensures 0xF0 <= c < 0xF8 ==> Stride(c) == 4
    ensures 0xF8 <= c ==> Stride(c) == 1
  {}

  // A byte that cannot lead is not counted, nor is a leading byte whose sequence the input cuts off; any other
  // leading byte is counted once, whatever follows it.
  lemma CountedMeans(buffer: seq<bv8>, i: nat)
    requires i < |buffer|
    ensures 0x80 <= buffer[i] < 0xC0 || 0xF8 <= buffer[i] ==> Counted(buffer, i) == []
    ensures buffer[i] < 0x80 ==> Counted(buffer, i) == [Narrow(buffer[i])]
    ensures 0xC0 <= buffer[i] < 0xF8 ==> |Counted(buffer, i)| == (if i + Stride(buffer[i]) <= |buffer| then 1 else 0)
    ensures 0xC0 <= buffer[i] < 0xF8 && Counted(buffer, i) != [] ==> Counted(buffer, i)[0].Wide?
  {
    StrideMeans(buffer[i]);
  }

  // The bits of a decoded value, for any bytes: the low bits of the leading byte and six of each trailing one.
  lemma Join2Means(a: bv8, b: bv8)
    ensures Join2(a, b) >> 6 == a as bv32 & 0x1F && Join2(a, b) & 0x3F == b as bv32 & 0x3F
  {}

  lemma Join3Means(a: bv8, b: bv8, c: bv8)
    ensures Join3(a, b, c) >> 12 == a as bv32 & 0x0F && Join3(a, b, c) & 0x3F == c as bv32 & 0x3F
    ensures (Join3(a, b, c) >> 6) & 0x3F == b as bv32 & 0x3F
  {}

  lemma Join4Ends(a: bv8, b: bv8, c: bv8, d: bv8)
    ensures Join4(a, b, c, d) >> 18 == a as bv32 & 0x07 && Join4(a, b, c, d) & 0x3F == d as bv32 & 0x3F
  {}

  lemma Join4Middle(a: bv8, b: bv8, c: bv8, d: bv8)
    ensures (Join4(a, b, c, d) >> 12) & 0x3F == b as bv32 & 0x3F && (Join4(a, b, c, d) >> 6) & 0x3F == c as bv32 & 0x3F
  {}

  // What is counted for any bytes that fit: the low 16 of these bits.
  lemma CountedValue(buffer: seq<bv8>, i: nat)
    requires i < |buffer| && 0xC0 <= buffer[i] < 0xF8 && i + Stride(buffer[i]) <= |buffer|
    ensures Stride(buffer[i]) == 2 ==> Counted(buffer, i) == [Wide(Low16(Join2(buffer[i], buffer[i + 1])))]
    ensures Stride(buffer[i]) == 3 ==>
              Counted(buffer, i) == [Wide(Low16(Join3(buffer[i], buffer[i + 1], buffer[i + 2])))]
    ensures Stride(buffer[i]) == 4 ==>
              Counted(buffer, i) == [Wide(Low16(Join4(buffer[i], buffer[i + 1], buffer[i + 2], buffer[i + 3])))]
    ensures 2 <= Stride(buffer[i]) <= 4
  {
    StrideMeans(buffer[i]);
  }

  lemma VisitLocal()
    ensures Local(Visit)
  {
    forall before, buffer, i: nat
      ensures LocalAt(Visit, before, buffer, i)
    {
      if i < |buffer| {
        VisitSuffix(before, buffer, i);
      }
    }
  }

  lemma VisitSuffix(before: seq<bv8>, buffer: seq<bv8>, i: nat)
    requires i < |buffer|
    ensures Visit(before + buffer, |before| + i) == Visit(buffer, i)
  {
    assert forall k :: 0 <= k < |buffer| ==> (before + buffer)[|before| + k] == buffer[k];
  }

  // Encoded text is scanned as such whatever follows it.
  lemma EncodedThen(cps: seq<bv32>, after: seq<bv8>)
    requires Scalars(cps)
    ensures Scan(EncodeAll(cps) + after) == UnitsOf(cps) + Scan(after)
  {
    TextTaken(cps);
    VisitLocal();
    WalkThen(Visit, Encodings(cps), after, UnitsOf(cps));
  }

  lemma InvalidFirst(b: bv8, after: seq<bv8>)
    requires 0x80 <= b < 0xC0 || 0xF8 <= b
    ensures Scan([b] + after) == Scan(after)
  {
    CountedMeans([b] + after, 0);
    StrideMeans(b);
    assert Visit([b] + after, 0) == (0, []);
    VisitLocal();
    WalkSuffix(Visit, [b], after, 0);
  }

  // Taking out a byte that cannot lead, wherever it stands after encoded text, leaves what is scanned unchanged.
  lemma InvalidIgnored(cps: seq<bv32>, b: bv8, after: seq<bv8>)
    requires Scalars(cps) && (0x80 <= b < 0xC0 || 0xF8 <= b)
    ensures Scan(EncodeAll(cps) + [b] + after) == Scan(EncodeAll(cps) + after)
  {
    EncodedThen(cps, [b] + after);
    EncodedThen(cps, after);
    InvalidFirst(b, after);
    assert EncodeAll(cps) + ([b] + after) == EncodeAll(cps) + [b] + after;
  }

  // ---------- what is accepted ----------

  // The test a code point is put to: the one for bytes below 0x80, else the wide one on its low 16 bits.
  predicate Passes(narrow: bv8 -> bool, wide: bv16 -> bool, cp: bv32) {
    if cp < 0x80 then narrow(cp as bv8) else wide((cp & 0xFFFF) as bv16)
  }

  ghost function Passing(narrow: bv8 -> bool, wide: bv16 -> bool, cps: seq<bv32>): set<nat> {
    set i | 0 <= i < |cps| && Passes(narrow, wide, cps[i])
  }

  predicate IsTextOf(buffer: seq<bv8>, cps: seq<bv32>) {
    Scalars(cps) && buffer == EncodeAll(cps)
  }

  lemma UnitPasses(narrow: bv8 -> bool, wide: bv16 -> bool, cp: bv32)
    ensures Passes(narrow, wide, cp) == match UnitOf(cp) case Narrow(b) => narrow(b) case Wide(w) => wide(w)
  {}

  // Encoded text has as many printable characters as code points that pass.
  lemma TextCount(narrow: bv8 -> bool, wide: bv16 -> bool, cps: seq<bv32>)
    requires Scalars(cps)
    ensures |Scan(EncodeAll(cps))| == |cps|
    ensures CountPrintable(narrow, wide, Scan(EncodeAll(cps))) == |Passing(narrow, wide, cps)|
  {
    var us := UnitsOf(cps);
    RoundTrip(cps);
    PrintableMeans(narrow, wide, us);
    forall i | 0 <= i < |cps|
      ensures Passes(narrow, wide, cps[i]) == match us[i] case Narrow(b) => narrow(b) case Wide(w) => wide(w)
    {
      UnitPasses(narrow, wide, cps[i]);
    }
    assert Passing(narrow, wide, cps) ==
           set i | 0 <= i < |us| && match us[i] case Narrow(b) => narrow(b) case Wide(w) => wide(w);
  }

  lemma AllTexts(buffer: seq<bv8>, narrow: bv8 -> bool, wide: bv16 -> bool)
    ensures forall cps :: cps != [] && IsTextOf(buffer, cps) ==>
              && buffer != [] && |Scan(buffer)| == |cps|
              && CountPrintable(narrow, wide, Scan(buffer)) == |Passing(narrow, wide, cps)|
              && (AllPass(narrow, wide, cps) ==> |Passing(narrow, wide, cps)| == |cps|)
              && (NonePasses(narrow, wide, cps) ==> |Passing(narrow, wide, cps)| == 0)
  {
    forall cps | cps != [] && IsTextOf(buffer, cps)
      ensures buffer != [] && |Scan(buffer)| == |cps|
      ensures CountPrintable(narrow, wide, Scan(buffer)) == |Passing(narrow, wide, cps)|
      ensures AllPass(narrow, wide, cps) ==> |Passing(narrow, wide, cps)| == |cps|
      ensures NonePasses(narrow, wide, cps) ==> |Passing(narrow, wide, cps)| == 0
    {
      TextCount(narrow, wide, cps);
      AllOrNone(narrow, wide, cps);
    }
  }

  predicate AllPass(narrow: bv8 -> bool, wide: bv16 -> bool, cps: seq<bv32>) {
    forall cp :: cp in cps ==> Passes(narrow, wide, cp)
  }

  predicate NonePasses(narrow: bv8 -> bool, wide: bv16 -> bool, cps: seq<bv32>) {
    forall cp :: cp in cps ==> !Passes(narrow, wide, cp)
  }

  // Either all code points of such a text are printable or none is.
  lemma AllOrNone(narrow: bv8 -> bool, wide: bv16 -> bool, cps: seq<bv32>)
    ensures AllPass(narrow, wide, cps) ==> |Passing(narrow, wide, cps)| == |cps|
    ensures NonePasses(narrow, wide, cps) ==> |Passing(narrow, wide, cps)| == 0
  {
    var marks := seq(|cps|, i requires 0 <= i < |cps| => Passes(narrow, wide, cps[i]));
    TruesCounted(marks, |cps|);
    assert Passing(narrow, wide, cps) == set i | 0 <= i < |cps| && marks[i];
    TruesOfAll(marks, |cps|);
  }
}
