/** The search for the lowest client version the server accepts, and the text form of a version.
    `src/managed_watch.rs`. */
module VersionSearch {
  import opened Prelude
  import opened Numerals

  const VERSION_SEARCH_SPAN: nat := 4096

  /** What a search comes back with; a login that fails for another reason ends it. */
  datatype Found = Floor(value: nat) | NothingAccepted | ProbeFailed

  /** The answer of the server to one login: accepted, rejected, or neither. */
  type Probe = nat -> Option<bool>

  predicate Accepts(probe: Probe, value: nat)
  {
    probe(value) == Some(true)
  }

  predicate Rejects(probe: Probe, value: nat)
  {
    probe(value) == Some(false)
  }

  /** Every login is answered, and a version above an accepted one is accepted. */
  ghost predicate UpwardClosed(probe: Probe)
  {
    && (forall v :: probe(v).Some?)
    && (forall v, w :: v <= w && Accepts(probe, v) ==> Accepts(probe, w))
  }

  ghost predicate LeastAccepted(probe: Probe, from: nat, value: nat)
  {
    from <= value && Accepts(probe, value) && forall v :: from <= v < value ==> !Accepts(probe, v)
  }

  /** A version with a rejected predecessor is the least one a real server accepts; and where the top of the span is
      rejected, so is all of it. */
  lemma RejectedBelow(probe: Probe, from: nat, value: nat)
    requires UpwardClosed(probe) && from <= value
    ensures Accepts(probe, value) && (value == from || Rejects(probe, value - 1)) ==> LeastAccepted(probe, from, value)
    ensures Rejects(probe, value) ==> forall v :: from <= v <= value ==> !Accepts(probe, v)
  {
    if value > from {
      assert Rejects(probe, value - 1) ==> !Accepts(probe, value - 1);
    }
    assert Rejects(probe, value) ==> !Accepts(probe, value);
  }

  function Pow2(k: nat): nat
  {
    if k == 0 then 1 else 2 * Pow2(k - 1)
  }

  /** Escalates from `rejected` until something is accepted, then searches back down. Whatever the answers, what comes
      back is accepted and is the start or has a rejected predecessor. For a real server it is the least accepted
      version, and the search fails exactly when nothing within the span is accepted. */
  method SearchVersionFloor(rejected: nat, probe: Probe) returns (found: Found, probes: nat)
    ensures found.Floor? ==>
              && Accepts(probe, found.value) && rejected <= found.value <= rejected + VERSION_SEARCH_SPAN
              && (found.value == rejected || Rejects(probe, found.value - 1))
    ensures found.NothingAccepted? ==> Rejects(probe, rejected) && Rejects(probe, rejected + VERSION_SEARCH_SPAN)
    ensures found.ProbeFailed? ==> exists v :: rejected <= v <= rejected + VERSION_SEARCH_SPAN && probe(v).None?
    ensures Accepts(probe, rejected) ==> found == Floor(rejected) && probes == 1
    ensures UpwardClosed(probe) && found.Floor? ==> LeastAccepted(probe, rejected, found.value)
    ensures UpwardClosed(probe) ==>
              (!found.Floor? <==> forall v :: rejected <= v <= rejected + VERSION_SEARCH_SPAN ==> !Accepts(probe, v))
    ensures probes <= 19
  {
    probes := 1;
    match probe(rejected)
    case None => return ProbeFailed, probes;
    case Some(true) => return Floor(rejected), probes;
    case Some(false) =>
    var tooLow: nat, accepted: Option<nat> := rejected, None;
    var step := 4;
    ghost var k := 1;
    Powers();
    while step <= VERSION_SEARCH_SPAN
      invariant 1 <= k <= 7 && step == Pow2(2 * k)
      invariant probes == k && Rejects(probe, tooLow) && accepted == None
      invariant tooLow == if k == 1 then rejected else rejected + Pow2(2 * (k - 1))
      decreases 7 - k
    {
      var candidate := rejected + step;
      probes := probes + 1;
      match probe(candidate) {
        case None => return ProbeFailed, probes;
        case Some(true) =>
          accepted := Some(candidate);
          break;
        case Some(false) =>
          tooLow := candidate;
          step := step * 4;
          k := k + 1;
      }
    }
    if accepted.None? {
      if UpwardClosed(probe) {
        RejectedBelow(probe, rejected, rejected + VERSION_SEARCH_SPAN);
      }
      return NothingAccepted, probes;
    }
    var high: nat := accepted.value;
    ghost var bits: nat := 2 * k;
    while tooLow + 1 < high
      invariant rejected <= tooLow < high <= rejected + VERSION_SEARCH_SPAN
      invariant Rejects(probe, tooLow) && Accepts(probe, high)
      invariant high - tooLow <= Pow2(bits) && probes + bits <= 19
      decreases high - tooLow
    {
      var middle := tooLow + (high - tooLow) / 2;
      probes := probes + 1;
      bits := bits - 1;
      match probe(middle) {
        case None => return ProbeFailed, probes;
        case Some(true) => high := middle;
        case Some(false) => tooLow := middle;
      }
    }
    if UpwardClosed(probe) {
      RejectedBelow(probe, rejected, high);
    }
    return Floor(high), probes;
  }

  lemma Powers()
    ensures Pow2(0) == 1 && Pow2(2) == 4 && Pow2(4) == 16 && Pow2(6) == 64 && Pow2(8) == 256 && Pow2(10) == 1024
    ensures Pow2(12) == 4096 && Pow2(14) == 16384
  {
    assert Pow2(1) == 2 && Pow2(3) == 8 && Pow2(5) == 32 && Pow2(7) == 128 && Pow2(9) == 512;
    assert Pow2(11) == 2048 && Pow2(13) == 8192;
  }

  // ------------------------------------------------------------------------------------------------ version texts

  /** The parts of a text between dots. */
  function SplitDots(text: string): (parts: seq<string>)
    ensures parts != []
  {
    if text == [] then [[]]
    else
      var n := |text| - 1;
      var before := SplitDots(text[..n]);
      if text[n] == '.' then before + [[]]
      else before[..|before| - 1] + [before[|before| - 1] + [text[n]]]
  }

  /** `0.<minor>.<patch>` as one number; the multiplication wraps at 32 bits. */
  function ParseVersion(version: string): Option<nat>
  {
    var parts := SplitDots(version);
    if |parts| != 3 || parts[0] != "0" then None
    else
      match (ParseUnsigned(parts[1], U32_LIMIT), ParseUnsigned(parts[2], U32_LIMIT))
      case (Some(minor), Some(patch)) =>
        if patch >= 1000 then None else Some((minor * 1000 + patch) % U32_LIMIT)
      case _ => None
  }

  function FormatVersion(value: nat): string
  {
    "0." + Decimal(value / 1000) + "." + Decimal(value % 1000)
  }

  /** Text without a dot only extends the last part. */
  lemma {:induction false} SplitPlain(text: string, plain: string, init: seq<string>, last: string)
    requires SplitDots(text) == init + [last]
    requires '.' !in plain
    ensures SplitDots(text + plain) == init + [last + plain]
  {
    if plain == [] {
      assert text + plain == text && last + plain == last;
    } else {
      var n := |plain| - 1;
      SplitPlain(text, plain[..n], init, last);
      assert (text + plain)[..|text + plain| - 1] == text + plain[..n];
      assert last + plain[..n] + [plain[n]] == last + plain;
    }
  }

  lemma SplitDot(text: string, init: seq<string>)
    requires SplitDots(text) == init
    ensures SplitDots(text + ".") == init + [[]]
  {
    assert (text + ".")[..|text|] == text;
  }

  /** Three plain parts joined by dots come apart again. */
  lemma SplitJoined(a: string, b: string, c: string)
    requires '.' !in a && '.' !in b && '.' !in c
    ensures SplitDots(a + "." + b + "." + c) == [a, b, c]
  {
    assert SplitDots([]) == [] + [[]];
    SplitPlain([], a, [], []);
    assert [] + a == a;
    hide SplitDots;
    assert [] + [a] == [a] && [a] + [b] == [a, b] && [a, b] + [c] == [a, b, c] && [] + b == b && [] + c == c;
    SplitDot(a, [a]);
    SplitPlain(a + ".", b, [a], []);
    SplitDot(a + "." + b, [a, b]);
    SplitPlain(a + "." + b + ".", c, [a, b], []);
  }

  /** The parts with a dot between each and the next. */
  function Dotted(parts: seq<string>): string
    requires parts != []
  {
    if |parts| == 1 then parts[0] else Dotted(parts[..|parts| - 1]) + "." + parts[|parts| - 1]
  }

  lemma {:induction false} SplitThenJoin(text: string)
    ensures Dotted(SplitDots(text)) == text && forall part :: part in SplitDots(text) ==> '.' !in part
  {
    if text != [] {
      var n := |text| - 1;
      var before := SplitDots(text[..n]);
      SplitThenJoin(text[..n]);
      assert text == text[..n] + [text[n]];
      if text[n] == '.' {
        assert (before + [[]])[..|before|] == before;
      } else {
        var init, last := before[..|before| - 1], before[|before| - 1];
        assert last in before;
        assert SplitDots(text)[..|init|] == init;
      }
    }
  }

  /** A version reads as a number exactly when it is `0.<minor>.<patch>` with a patch below a thousand: then that number
      is the minor version times a thousand and the patch, in 32 bits. */
  lemma ParsesVersionIff(version: string, value: nat)
    ensures ParseVersion(version) == Some(value) <==>
              exists a, b, minor: nat, patch: nat :: IsVersion(version, a, b, minor, patch)
                                           && value == (minor * 1000 + patch) % 4_294_967_296
  {
    hide SplitDots, ParseUnsigned, Denotes;
    var parts := SplitDots(version);
    SplitThenJoin(version);
    if ParseVersion(version) == Some(value) {
      var a, b := parts[1], parts[2];
      assert parts == ["0", a, b];
      assert Dotted(["0"]) == "0" && ["0", a, b][..2] == ["0", a] && ["0", a][..1] == ["0"];
      assert version == "0" + "." + a + "." + b == "0." + a + "." + b;
      var minor, patch := ParseUnsigned(a, U32_LIMIT).value, ParseUnsigned(b, U32_LIMIT).value;
      ParsesIff(a, U32_LIMIT, minor);
      ParsesIff(b, U32_LIMIT, patch);
      assert IsVersion(version, a, b, minor, patch);
    }
    forall a, b, minor: nat, patch: nat | IsVersion(version, a, b, minor, patch)
      ensures ParseVersion(version) == Some((minor * 1000 + patch) % U32_LIMIT)
    {
      ParsesIff(a, U32_LIMIT, minor);
      ParsesIff(b, U32_LIMIT, patch);
      DenotesNoDot(a, minor);
      DenotesNoDot(b, patch);
      SplitJoined("0", a, b);
      assert "0" + "." == "0.";
    }
  }

  ghost predicate IsVersion(version: string, a: string, b: string, minor: nat, patch: nat)
  {
    && version == "0." + a + "." + b && Denotes(a, minor) && Denotes(b, patch)
    && minor < 4_294_967_296 && patch < 1000
  }

  lemma DenotesNoDot(text: string, n: nat)
    requires Denotes(text, n)
    ensures '.' !in text
  {
    OnlyDigits(n, '.');
  }

  /** Parsing what was formatted gives the version back. */
  lemma FormatThenParse(value: nat)
    requires value < U32_LIMIT
    ensures ParseVersion(FormatVersion(value)) == Some(value)
  {
    hide Decimal, SplitDots, ParseUnsigned;
    var minor, patch := Decimal(value / 1000), Decimal(value % 1000);
    OnlyDigits(value / 1000, '.');
    OnlyDigits(value % 1000, '.');
    SplitJoined("0", minor, patch);
    assert "0" + "." == "0.";
    DecimalParses(value / 1000, U32_LIMIT);
    DecimalParses(value % 1000, U32_LIMIT);
  }
}
