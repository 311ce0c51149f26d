/**
 * Small helpers of the media-server utilities: unsigned 64-bit clock
 * arithmetic (GstClockTime wraps around), the keyframe-request throttle kept
 * per pad, the protocol-token matcher and the media-type names.
 */
module KmsUtils {
  import opened Wrappers

  // ---------------------------------------------------------------------------
  // Clock time: unsigned 64-bit nanoseconds
  // ---------------------------------------------------------------------------

  const U64: int := 0x1_0000_0000_0000_0000

  type ClockTime = t: int | 0 <= t < U64

  /** One second in clock units (nanoseconds). */
  const SECOND: ClockTime := 1_000_000_000

  /** The "no time" marker: the largest clock value. */
  const CLOCK_TIME_NONE: ClockTime := U64 - 1

  /** Keyframe requests on one pad are at least this far apart. */
  const KEYFRAME_DISPERSION: ClockTime := SECOND

  /** Unsigned 64-bit addition: wraps past the top of the range. */
  function Add64(a: ClockTime, b: ClockTime): (r: ClockTime)
    ensures a + b < U64 ==> r == a + b
    ensures a + b >= U64 ==> r == a + b - U64
  {
    (a + b) % U64
  }

  /** Unsigned 64-bit subtraction: a later time minus an earlier one is their
      distance, anything else wraps to a huge value. */
  function Sub64(a: ClockTime, b: ClockTime): (r: ClockTime)
    ensures b <= a ==> r == a - b
    ensures a < b ==> r == a - b + U64
  {
    (a - b) % U64
  }

  /** Subtracting the "no time" marker wraps to one more than the time. */
  lemma SubNoneWraps(now: ClockTime)
    ensures Sub64(now, CLOCK_TIME_NONE) == (now + 1) % U64
  {
  }

  // ---------------------------------------------------------------------------
  // Keyframe-request throttle
  // ---------------------------------------------------------------------------

  /**
   * A later keyframe request passes when the dispersion has elapsed since the
   * last one: the wrapped sum of the last time and the dispersion lies before
   * `now`. Without wrap-around that is "more than a second later"; near the top
   * of the clock range the sum wraps to a small value.
   */
  function DispersionElapsed(last: ClockTime, now: ClockTime): (r: bool)
    ensures last + KEYFRAME_DISPERSION < U64 ==> (r <==> now > last + KEYFRAME_DISPERSION)
    ensures last + KEYFRAME_DISPERSION >= U64 ==> (r <==> now > last + KEYFRAME_DISPERSION - U64)
  {
    Add64(last, KEYFRAME_DISPERSION) < now
  }

  /**
   * Near the top of the clock range the addition wraps, and then any request
   * after the first second of the range passes, even one at the same instant.
   */
  lemma DispersionWrapsNearTop(last: ClockTime)
    requires last + KEYFRAME_DISPERSION >= U64 && last > SECOND
    ensures DispersionElapsed(last, last)
  {
  }

  /** The per-pad state the throttle reads and writes. */
  class Pad {
    /** Whether the pad has a parent element (and so a clock to read). */
    const hasParent: bool
    /** Time of the last keyframe request that passed, once there is one. */
    var lastKeyframeRequest: Option<ClockTime>

    constructor (hasParent: bool)
      ensures this.hasParent == hasParent && lastKeyframeRequest == None
    {
      this.hasParent := hasParent;
      lastKeyframeRequest := None;
    }

    /**
     * Decides whether a keyframe request read at clock time `now` may go
     * upstream. A pad without a parent cannot read a clock and always lets it
     * through; the first request passes and records `now`; a later one passes
     * only when the dispersion has elapsed, and only then is `now` recorded.
     */
    method CheckLastRequestTime(now: ClockTime) returns (pass: bool)
      modifies this
      ensures !hasParent ==> pass && lastKeyframeRequest == old(lastKeyframeRequest)
      ensures hasParent && old(lastKeyframeRequest).None? ==> pass && lastKeyframeRequest == Some(now)
      ensures hasParent && old(lastKeyframeRequest).Some? ==>
                pass == DispersionElapsed(old(lastKeyframeRequest).value, now) &&
                lastKeyframeRequest == (if pass then Some(now) else old(lastKeyframeRequest))
    {
      if !hasParent {
        return true;
      }
      pass := false;
      match lastKeyframeRequest
      case None =>
        lastKeyframeRequest := Some(now);
        pass := true;
      case Some(last) =>
        if DispersionElapsed(last, now) {
          pass := true;
          lastKeyframeRequest := Some(now);
        }
    }
  }

  // ---------------------------------------------------------------------------
  // Protocol matcher
  // ---------------------------------------------------------------------------

  predicate IsPrefix(p: string, s: string)
  {
    |p| <= |s| && s[..|p|] == p
  }

  /**
   * The characters a regular expression compiled with GLib's default newline
   * convention ("any newline") treats as line ends: `.` matches none of them.
   */
  predicate IsLineEnd(c: char)
  {
    c in {'\n', '\r', '\U{000B}', '\U{000C}', '\U{0085}', '\U{2028}', '\U{2029}'}
  }

  predicate NoNewline(s: string)
  {
    forall i :: 0 <= i < |s| ==> !IsLineEnd(s[i])
  }

  /** `.+` can start at index k: at least one character that is not a line end. */
  predicate SomeCharAt(s: string, k: int)
  {
    0 <= k < |s| && !IsLineEnd(s[k])
  }

  /** `.+` can cover exactly s[..j]: one or more characters, none a line end. */
  predicate LeadingText(s: string, j: int)
  {
    1 <= j <= |s| && NoNewline(s[..j])
  }

  /**
   * The pattern `(P|.+/P|P/.+|.+/P/.+)` matched against `term` anchored at
   * its start only: some alternative matches a prefix of `term`. `P` is taken
   * literally and `.` matches anything but a line end.
   */
  ghost predicate AnchoredMatch(term: string, proto: string)
  {
    || IsPrefix(proto, term)
    || (exists j :: LeadingText(term, j) && IsPrefix("/" + proto, term[j..]))
    || (IsPrefix(proto + "/", term) && SomeCharAt(term, |proto| + 1))
    || (exists j :: LeadingText(term, j) && IsPrefix("/" + proto + "/", term[j..]) && SomeCharAt(term, j + |proto| + 2))
  }

  /** Scans for `/P` at index i or later, the text before it being one line. */
  function SlashProtoFrom(term: string, proto: string, i: nat): (r: bool)
    requires LeadingText(term, i)
    ensures r <==> exists j :: i <= j && LeadingText(term, j) && IsPrefix("/" + proto, term[j..])
    decreases |term| - i
  {
    if IsPrefix("/" + proto, term[i..]) then true
    else if i == |term| || IsLineEnd(term[i]) then
      assert forall j :: i < j <= |term| ==> term[..j][i] == term[i];
      false
    else
      assert term[..i + 1] == term[..i] + [term[i]];
      SlashProtoFrom(term, proto, i + 1)
  }

  /**
   * Does `term` name protocol `proto`: does it start with it, or hold `/proto`
   * after at least one character? Trailing text is allowed.
   */
  function ContainsProto(term: string, proto: string): (r: bool)
    ensures r <==> AnchoredMatch(term, proto)
  {
    var startsWith := IsPrefix(proto, term);
    var later := |term| >= 1 && !IsLineEnd(term[0]) && SlashProtoFrom(term, proto, 1);
    // The third and fourth alternatives only extend the first and the second.
    assert IsPrefix(proto + "/", term) ==> startsWith by {
      if IsPrefix(proto + "/", term) {
        assert term[..|proto|] == (proto + "/")[..|proto|];
      }
    }
    assert forall j :: LeadingText(term, j) && IsPrefix("/" + proto + "/", term[j..]) ==> IsPrefix("/" + proto, term[j..]) by {
      forall j | LeadingText(term, j) && IsPrefix("/" + proto + "/", term[j..])
        ensures IsPrefix("/" + proto, term[j..])
      {
        assert term[j..][..|proto| + 1] == ("/" + proto + "/")[..|proto| + 1];
      }
    }
    assert later <==> exists j :: LeadingText(term, j) && IsPrefix("/" + proto, term[j..]) by {
      if |term| >= 1 && !IsLineEnd(term[0]) {
        assert LeadingText(term, 1);
      } else {
        forall j | 1 <= j <= |term| ensures !NoNewline(term[..j]) {
          assert term[..j][0] == term[0];
        }
      }
    }
    startsWith || later
  }

  /** A handler for "RTP/SAVPF" recognises the DTLS variant of the profile. */
  lemma ContainsProtoDtls()
    ensures ContainsProto("UDP/TLS/RTP/SAVPF", "RTP/SAVPF")
  {
    var term := "UDP/TLS/RTP/SAVPF";
    assert LeadingText(term, 7) by { assert term[..7] == "UDP/TLS"; }
    assert IsPrefix("/" + "RTP/SAVPF", term[7..]);
  }

  /** Only the start is anchored: a longer token with the same prefix matches too. */
  lemma ContainsProtoTrailingText()
    ensures ContainsProto("RTP/AVPF", "RTP/AVP")
    ensures ContainsProto("RTP/SAVPF", "SAVP")
  {
    assert IsPrefix("RTP/AVP", "RTP/AVPF");
    var term := "RTP/SAVPF";
    assert LeadingText(term, 3) by { assert term[..3] == "RTP"; }
    assert IsPrefix("/" + "SAVP", term[3..]);
  }

  /** `.+` cannot run across a line end: a carriage return before `/P` stops the match. */
  lemma ContainsProtoStopsAtLineEnd()
    ensures !ContainsProto("a\r/RTP/AVP", "RTP/AVP")
  {
    var term := "a\r/RTP/AVP";
    forall j | 2 <= j <= |term| ensures !NoNewline(term[..j]) {
      assert term[..j][1] == '\r';
    }
    assert !IsPrefix("/" + "RTP/AVP", term[1..]) by { assert term[1..][0] == '\r'; }
    assert !IsPrefix("RTP/AVP", term) by { assert term[0] == 'a'; }
  }

  // ---------------------------------------------------------------------------
  // Media types
  // ---------------------------------------------------------------------------

  /** The media types; `Other` stands for any other value of the enumeration. */
  datatype MediaType = Video | Audio | Data | Other(code: int)

  function MediaTypeToStr(t: MediaType): (s: string)
    ensures t.Video? <==> s == "video"
    ensures t.Audio? <==> s == "audio"
    ensures t.Data? <==> s == "data"
    ensures t.Other? <==> s == "<unsupported>"
  {
    match t
    case Video => "video"
    case Audio => "audio"
    case Data => "data"
    case Other(_) => "<unsupported>"
  }
}
