/**
 * The base SDP media handler: the policy that decides which attributes of an
 * offered m-line may be copied into the answer, the ordered bandwidth list and
 * extension list a handler carries, the default protocol test, and the
 * behaviour every protocol-specific handler inherits (copying bandwidths,
 * running extensions, and "not implemented" for offer/answer creation).
 */
module SdpMediaHandler {
  import opened Wrappers
  import opened SdpMedia

  // ---------------------------------------------------------------------------
  // Media extensions
  // ---------------------------------------------------------------------------

  /** What an extension hook reports: whether it succeeded, and the media as it left it. */
  datatype ExtensionStep = ExtensionStep(ok: bool, media: Media)

  /**
   * A pluggable media extension (key exchange, connection address, ...). Its
   * implementation is outside this model, so each hook is an arbitrary function.
   */
  datatype MediaExtension = MediaExtension(
    canInsertAttribute: (Media, Attribute, Media) -> bool,
    addOfferAttributes: Media -> ExtensionStep,
    addAnswerAttributes: (Media, Media) -> ExtensionStep,
    processAnswerAttributes: Media -> bool)

  /** Some extension, asked in registration order, claims the attribute. */
  function ExtensionsClaim(exts: seq<MediaExtension>, offer: Media, attr: Attribute, media: Media): (r: bool)
    ensures r <==> exists i :: 0 <= i < |exts| && exts[i].canInsertAttribute(offer, attr, media)
  {
    if exts == [] then false
    else if exts[0].canInsertAttribute(offer, attr, media) then true
    else
      assert forall i :: 1 <= i < |exts| ==> exts[i] == exts[1..][i - 1];
      ExtensionsClaim(exts[1..], offer, attr, media)
  }

  /**
   * The media after each extension's offer hook has run on it, in order;
   * failures are ignored. Hooks that leave the media alone leave it unchanged.
   */
  function ApplyOfferExtensions(exts: seq<MediaExtension>, offer: Media): (r: Media)
    ensures (forall i :: 0 <= i < |exts| ==> exts[i].addOfferAttributes(offer).media == offer) ==> r == offer
  {
    if exts == [] then offer
    else
      assert forall i :: 1 <= i < |exts| ==> exts[i] == exts[1..][i - 1];
      ApplyOfferExtensions(exts[1..], exts[0].addOfferAttributes(offer).media)
  }

  /**
   * The answer after each extension's answer hook has run on it, in order;
   * failures are ignored. Hooks that leave the answer alone leave it unchanged.
   */
  function ApplyAnswerExtensions(exts: seq<MediaExtension>, offer: Media, answer: Media): (r: Media)
    ensures (forall i :: 0 <= i < |exts| ==> exts[i].addAnswerAttributes(offer, answer).media == answer) ==> r == answer
  {
    if exts == [] then answer
    else
      assert forall i :: 1 <= i < |exts| ==> exts[i] == exts[1..][i - 1];
      ApplyAnswerExtensions(exts[1..], offer, exts[0].addAnswerAttributes(offer, answer).media)
  }

  /** A newly registered extension runs its offer hook after all earlier ones. */
  lemma {:induction false} ApplyOfferExtensionsLast(exts: seq<MediaExtension>, e: MediaExtension, offer: Media)
    ensures ApplyOfferExtensions(exts + [e], offer) == e.addOfferAttributes(ApplyOfferExtensions(exts, offer)).media
  {
    if exts != [] {
      assert (exts + [e])[1..] == exts[1..] + [e];
      ApplyOfferExtensionsLast(exts[1..], e, exts[0].addOfferAttributes(offer).media);
    }
  }

  /** A newly registered extension runs its answer hook after all earlier ones. */
  lemma {:induction false} ApplyAnswerExtensionsLast(exts: seq<MediaExtension>, e: MediaExtension, offer: Media, answer: Media)
    ensures ApplyAnswerExtensions(exts + [e], offer, answer) == e.addAnswerAttributes(offer, ApplyAnswerExtensions(exts, offer, answer)).media
  {
    if exts != [] {
      assert (exts + [e])[1..] == exts[1..] + [e];
      ApplyAnswerExtensionsLast(exts[1..], e, offer, exts[0].addAnswerAttributes(offer, answer).media);
    }
  }

  /** The media with a handler's bandwidth lines appended after its own. */
  function WithBandwidths(m: Media, bws: seq<Bandwidth>): (r: Media)
    ensures |r.bandwidths| == |m.bandwidths| + |bws|
    ensures r.bandwidths[..|m.bandwidths|] == m.bandwidths
    ensures r.bandwidths[|m.bandwidths|..] == bws
    ensures r.(bandwidths := m.bandwidths) == m
  {
    m.(bandwidths := m.bandwidths + bws)
  }

  // ---------------------------------------------------------------------------
  // Attribute validators
  // ---------------------------------------------------------------------------

  /** The longest prefix of `s` that holds no space. */
  function UpToSpace(s: string): (t: string)
    ensures |t| <= |s| && t == s[..|t|]
    ensures forall i :: 0 <= i < |t| ==> t[i] != ' '
    ensures |t| < |s| ==> s[|t|] == ' '
  {
    if s == [] || s[0] == ' ' then []
    else [s[0]] + UpToSpace(s[1..])
  }

  /**
   * The first field of a value split on single spaces. Splitting the empty
   * string yields no field at all, so there is no first field to compare.
   */
  function FirstToken(value: string): (tok: Option<string>)
    ensures tok.None? <==> value == ""
    ensures tok.Some? ==> |tok.value| <= |value| && tok.value == value[..|tok.value|]
    ensures tok.Some? ==> forall i :: 0 <= i < |tok.value| ==> tok.value[i] != ' '
    ensures tok.Some? ==> |tok.value| == |value| || value[|tok.value|] == ' '
  {
    if value == "" then None else Some(UpToSpace(value))
  }

  /** Linear search of a format list, stopping at the first equal entry. */
  function HasFormat(formats: seq<string>, fmt: string): (r: bool)
    ensures r <==> fmt in formats
  {
    if formats == [] then false
    else if formats[0] == fmt then true
    else
      assert formats == [formats[0]] + formats[1..];
      HasFormat(formats[1..], fmt)
  }

  /** The validator of every supported attribute but `fmtp`. */
  function DefaultAcceptAttribute(offer: Media, attr: Attribute, media: Media): (r: bool)
    ensures r
  {
    true
  }

  /** An `fmtp` line survives only if its payload number is one of the answer's formats. */
  function AcceptFmtpAttribute(offer: Media, attr: Attribute, media: Media): (r: bool)
    ensures r <==> exists i :: 0 <= i < |media.formats| && FirstToken(attr.value) == Some(media.formats[i])
  {
    match FirstToken(attr.value)
    case None => false
    case Some(fmt) => HasFormat(media.formats, fmt)
  }

  datatype Validator = AcceptAlways | AcceptFmtp

  /** Runs a table entry's validator: the default accepts anything, the fmtp one checks the payload number. */
  function Validate(v: Validator, offer: Media, attr: Attribute, media: Media): (r: bool)
    ensures v.AcceptAlways? ==> r
    ensures v.AcceptFmtp? ==> (r <==> exists i :: 0 <= i < |media.formats| && FirstToken(attr.value) == Some(media.formats[i]))
  {
    match v
    case AcceptAlways => DefaultAcceptAttribute(offer, attr, media)
    case AcceptFmtp => AcceptFmtpAttribute(offer, attr, media)
  }

  /** The supported media attributes and their validators, in table order. */
  const SupportedAttributes: seq<(string, Validator)> := [
    ("framerate", AcceptAlways),
    ("fmtp", AcceptFmtp),
    ("lang", AcceptAlways),
    ("maxptime", AcceptAlways),
    ("mid", AcceptAlways),
    ("ptime", AcceptAlways),
    ("quality", AcceptAlways),
    ("setup", AcceptAlways)
  ]

  /** The validator of the first table entry named `key`, if any. */
  function Lookup(table: seq<(string, Validator)>, key: string): (r: Option<Validator>)
    ensures r.None? <==> forall i :: 0 <= i < |table| ==> table[i].0 != key
    ensures r.Some? ==> exists i :: 0 <= i < |table| && table[i] == (key, r.value)
  {
    if table == [] then None
    else if table[0].0 == key then Some(table[0].1)
    else
      assert forall i :: 1 <= i < |table| ==> table[i] == table[1..][i - 1];
      Lookup(table[1..], key)
  }

  /** Search of the attribute list for a direction attribute, stopping at the first one. */
  function IsDirectionAttrPresent(attrs: seq<Attribute>): (r: bool)
    ensures r <==> exists i :: 0 <= i < |attrs| && IsDirection(attrs[i])
  {
    if attrs == [] then false
    else if IsDirection(attrs[0]) then true
    else
      assert forall i :: 1 <= i < |attrs| ==> attrs[i] == attrs[1..][i - 1];
      IsDirectionAttrPresent(attrs[1..])
  }

  /** Every attribute of the list occurs once. */
  predicate NoDuplicates(attrs: seq<Attribute>)
  {
    forall i, j :: 0 <= i < j < |attrs| ==> attrs[i] != attrs[j]
  }

  // ---------------------------------------------------------------------------
  // The handler
  // ---------------------------------------------------------------------------

  datatype SdpErrorCode = UnexpectedError

  datatype SdpError = SdpError(code: SdpErrorCode, message: string)

  class MediaHandler {
    /** The protocol token this handler manages (construct-only; may be unset). */
    const proto: Option<string>
    /** Bandwidth lines copied into every offer and answer, in insertion order. */
    var bwtypes: seq<Bandwidth>
    /** Extensions, in registration order. */
    var extensions: seq<MediaExtension>

    constructor (proto: Option<string>)
      ensures this.proto == proto
      ensures bwtypes == [] && extensions == []
    {
      this.proto := proto;
      bwtypes := [];
      extensions := [];
    }

    /** The base handler cannot build an offer. */
    function CreateOffer(media: string): (r: Result<Media, SdpError>)
      ensures r.Failure? && r.error.code == UnexpectedError
    {
      Failure(SdpError(UnexpectedError, "Not implemented"))
    }

    /** The base handler cannot build an answer. */
    function CreateAnswer(offer: Media): (r: Result<Media, SdpError>)
      ensures r.Failure? && r.error.code == UnexpectedError
    {
      Failure(SdpError(UnexpectedError, "Not implemented"))
    }

    /** The base handler cannot intersect an offered media with an answer. */
    function IntersectSdpMedias(offer: Media, answer: Media): (r: Result<Media, SdpError>)
      ensures r.Failure? && r.error.code == UnexpectedError
    {
      Failure(SdpError(UnexpectedError, "Not implemented"))
    }

    /** The base handler cannot initialise an offered media. */
    function InitOffer(media: string, offer: Media): (r: Result<Media, SdpError>)
      ensures r.Failure? && r.error.code == UnexpectedError
    {
      Failure(SdpError(UnexpectedError, "Media offert initialization is not implemented"))
    }

    /** The base handler cannot initialise an answer media. */
    function InitAnswer(offer: Media, answer: Media): (r: Result<Media, SdpError>)
      ensures r.Failure? && r.error.code == UnexpectedError
    {
      Failure(SdpError(UnexpectedError, "Media answer initialization is not implemented"))
    }

    /** By default a handler manages exactly the protocol it was built for. */
    predicate ManageProtocol(protocol: Option<string>)
      ensures ManageProtocol(protocol) ==> protocol == proto
      ensures protocol == proto ==> ManageProtocol(protocol)
    {
      proto == protocol
    }

    method AddBandwidth(bwtype: string, bandwidth: nat)
      modifies this
      ensures bwtypes == old(bwtypes) + [Bandwidth(bwtype, bandwidth)]
      ensures extensions == old(extensions)
    {
      bwtypes := bwtypes + [Bandwidth(bwtype, bandwidth)];
    }

    method AddMediaExtension(ext: MediaExtension) returns (ok: bool)
      modifies this
      ensures ok
      ensures extensions == old(extensions) + [ext]
      ensures bwtypes == old(bwtypes)
    {
      extensions := extensions + [ext];
      ok := true;
    }

    /**
     * May `attr`, offered in `offer`, be added to the answer `media`? Duplicates
     * never; a direction only while the answer has none; a supported attribute
     * as its validator says; anything else only if an extension claims it.
     */
    predicate CanInsertAttribute(offer: Media, attr: Attribute, media: Media)
      reads this
      ensures CanInsertAttribute(offer, attr, media) ==> attr !in media.attributes
      ensures CanInsertAttribute(offer, attr, media) && IsDirection(attr) ==>
                forall i :: 0 <= i < |media.attributes| ==> !IsDirection(media.attributes[i])
    {
      if IsAttributeInMedia(media, attr) then false
      else if IsDirection(attr) then !IsDirectionAttrPresent(media.attributes)
      else match Lookup(SupportedAttributes, attr.key)
        case Some(v) => Validate(v, offer, attr, media)
        case None => ExtensionsClaim(extensions, offer, attr, media)
    }

    /**
     * Copies every stored bandwidth line into the offer, after the offer's own,
     * then lets each extension add its attributes; an extension's failure is
     * only logged, so the operation always succeeds.
     */
    method AddOfferAttributes(offer: Media) returns (ok: bool, result: Media)
      ensures ok
      ensures result == ApplyOfferExtensions(extensions, WithBandwidths(offer, bwtypes))
    {
      var m := offer;
      for i := 0 to |bwtypes|
        invariant m == offer.(bandwidths := offer.bandwidths + bwtypes[..i])
      {
        assert bwtypes[..i + 1] == bwtypes[..i] + [bwtypes[i]];
        m := m.(bandwidths := m.bandwidths + [bwtypes[i]]);
      }
      assert bwtypes[..|bwtypes|] == bwtypes;
      ghost var withBw := m;
      for j := 0 to |extensions|
        invariant ApplyOfferExtensions(extensions[j..], m) == ApplyOfferExtensions(extensions, withBw)
      {
        assert extensions[j..][1..] == extensions[j + 1..];
        var step := extensions[j].addOfferAttributes(m);
        m := step.media;
      }
      result := m;
      ok := true;
    }

    /**
     * Copies every stored bandwidth line into the answer, after the answer's
     * own, then lets each extension add its answer attributes; failures are
     * only logged, so the operation always succeeds.
     */
    method AddAnswerAttributes(offer: Media, answer: Media) returns (ok: bool, result: Media)
      ensures ok
      ensures result == ApplyAnswerExtensions(extensions, offer, WithBandwidths(answer, bwtypes))
    {
      var m := answer;
      for i := 0 to |bwtypes|
        invariant m == answer.(bandwidths := answer.bandwidths + bwtypes[..i])
      {
        assert bwtypes[..i + 1] == bwtypes[..i] + [bwtypes[i]];
        m := m.(bandwidths := m.bandwidths + [bwtypes[i]]);
      }
      assert bwtypes[..|bwtypes|] == bwtypes;
      ghost var withBw := m;
      for j := 0 to |extensions|
        invariant ApplyAnswerExtensions(extensions[j..], offer, m) == ApplyAnswerExtensions(extensions, offer, withBw)
      {
        assert extensions[j..][1..] == extensions[j + 1..];
        var step := extensions[j].addAnswerAttributes(offer, m);
        m := step.media;
      }
      result := m;
      ok := true;
    }

    /**
     * Hands the remote answer to each extension in order and stops at the first
     * that fails; `asked` is how many extensions were invoked.
     */
    method ProcessAnswer(answer: Media) returns (ok: bool, ghost asked: nat)
      ensures ok <==> forall i :: 0 <= i < |extensions| ==> extensions[i].processAnswerAttributes(answer)
      ensures ok ==> asked == |extensions|
      ensures !ok ==> 1 <= asked <= |extensions| && !extensions[asked - 1].processAnswerAttributes(answer)
      ensures forall i :: 0 <= i < asked - 1 ==> extensions[i].processAnswerAttributes(answer)
    {
      var i := 0;
      while i < |extensions|
        invariant 0 <= i <= |extensions|
        invariant forall k :: 0 <= k < i ==> extensions[k].processAnswerAttributes(answer)
      {
        if !extensions[i].processAnswerAttributes(answer) {
          return false, i + 1;
        }
        i := i + 1;
      }
      return true, i;
    }
  }

  // ---------------------------------------------------------------------------
  // Properties of the accept-attribute policy
  // ---------------------------------------------------------------------------

  /** The table holds exactly eight names; `fmtp` has its own validator, the others accept. */
  lemma SupportedAttributesTable(key: string)
    ensures key == "fmtp" ==> Lookup(SupportedAttributes, key) == Some(AcceptFmtp)
    ensures key in {"framerate", "lang", "maxptime", "mid", "ptime", "quality", "setup"} ==>
              Lookup(SupportedAttributes, key) == Some(AcceptAlways)
    ensures Lookup(SupportedAttributes, key).Some? <==>
              key in {"framerate", "fmtp", "lang", "maxptime", "mid", "ptime", "quality", "setup"}
  {
    var t := SupportedAttributes;
    assert t[0].0 == "framerate" && t[1].0 == "fmtp" && t[2].0 == "lang" && t[3].0 == "maxptime";
    assert t[4].0 == "mid" && t[5].0 == "ptime" && t[6].0 == "quality" && t[7].0 == "setup";
  }

  /**
   * An fmtp line is copied into the answer exactly when the first field of its
   * value is one of the answer's formats (and it is not already there).
   */
  lemma FmtpAcceptedIff(h: MediaHandler, offer: Media, attr: Attribute, media: Media)
    requires attr.key == "fmtp" && attr !in media.attributes
    ensures h.CanInsertAttribute(offer, attr, media) <==>
              exists i :: 0 <= i < |media.formats| && FirstToken(attr.value) == Some(media.formats[i])
  {
    SupportedAttributesTable(attr.key);
  }

  /**
   * A supported name is decided by its table validator alone: the handler's
   * extensions are not consulted, and every name but fmtp is accepted.
   */
  lemma SupportedNameIgnoresExtensions(h1: MediaHandler, h2: MediaHandler, offer: Media, attr: Attribute, media: Media)
    requires attr !in media.attributes
    requires attr.key in {"framerate", "fmtp", "lang", "maxptime", "mid", "ptime", "quality", "setup"}
    ensures h1.CanInsertAttribute(offer, attr, media) == h2.CanInsertAttribute(offer, attr, media)
    ensures attr.key != "fmtp" ==> h1.CanInsertAttribute(offer, attr, media)
  {
    SupportedAttributesTable(attr.key);
  }

  /**
   * An attribute that is neither a duplicate, a direction nor a supported name
   * is accepted exactly when one of the handler's extensions claims it.
   */
  lemma UnknownNameNeedsExtension(h: MediaHandler, offer: Media, attr: Attribute, media: Media)
    requires attr !in media.attributes && !IsDirection(attr)
    requires !(attr.key in {"framerate", "fmtp", "lang", "maxptime", "mid", "ptime", "quality", "setup"})
    ensures h.CanInsertAttribute(offer, attr, media) <==>
              exists i :: 0 <= i < |h.extensions| && h.extensions[i].canInsertAttribute(offer, attr, media)
  {
    SupportedAttributesTable(attr.key);
  }

  /**
   * A direction attribute that is not a duplicate is accepted exactly when the
   * answer has no direction attribute yet.
   */
  lemma DirectionAcceptedIff(h: MediaHandler, offer: Media, attr: Attribute, media: Media)
    requires attr !in media.attributes && IsDirection(attr)
    ensures h.CanInsertAttribute(offer, attr, media) <==> DirectionCount(media.attributes) == 0
  {
    DirectionCountZero(media.attributes);
  }

  /**
   * Appending only attributes the handler accepts keeps an answer free of
   * duplicates and with at most one direction attribute.
   */
  lemma InsertKeepsAnswerWellFormed(h: MediaHandler, offer: Media, attr: Attribute, media: Media)
    requires NoDuplicates(media.attributes) && DirectionCount(media.attributes) <= 1
    requires h.CanInsertAttribute(offer, attr, media)
    ensures NoDuplicates(media.attributes + [attr])
    ensures DirectionCount(media.attributes + [attr]) <= 1
  {
    DirectionCountAppend(media.attributes, attr);
    if IsDirection(attr) {
      DirectionCountZero(media.attributes);
    }
  }

  /** The first field of an fmtp value is the payload number written before the first space. */
  lemma FirstTokenOfFmtp(digits: string, params: string)
    requires digits != "" && forall i :: 0 <= i < |digits| ==> digits[i] != ' '
    ensures FirstToken(digits + " " + params) == Some(digits)
  {
    var v := digits + " " + params;
    var t := FirstToken(v).value;
    assert v[|digits|] == ' ';
    assert v[..|digits|] == digits;
  }

  /**
   * The answerer's view of an offered video m-line whose answer kept only
   * payload 97: of `fmtp:96`, `fmtp:97` and `fmtp:111` (whatever their
   * parameters) only the second survives.
   */
  lemma FmtpScenario(h: MediaHandler, offer: Media, answer: Media, params: string)
    requires answer.formats == ["97"] && answer.attributes == []
    ensures !h.CanInsertAttribute(offer, Attribute("fmtp", "96" + " " + params), answer)
    ensures h.CanInsertAttribute(offer, Attribute("fmtp", "97" + " " + params), answer)
    ensures !h.CanInsertAttribute(offer, Attribute("fmtp", "111" + " " + params), answer)
  {
    FirstTokenOfFmtp("96", params);
    FirstTokenOfFmtp("97", params);
    FirstTokenOfFmtp("111", params);
    FmtpAcceptedIff(h, offer, Attribute("fmtp", "96" + " " + params), answer);
    FmtpAcceptedIff(h, offer, Attribute("fmtp", "97" + " " + params), answer);
    FmtpAcceptedIff(h, offer, Attribute("fmtp", "111" + " " + params), answer);
  }

  /**
   * A handler without extensions drops attributes it does not know, such as
   * `a=audiotestattr1:1` or `a=videotestattr1:1` in an offer.
   */
  lemma UnknownAttributeDropped(h: MediaHandler, offer: Media, media: Media, key: string, value: string)
    requires h.extensions == []
    requires key in {"audiotestattr1", "audiotestattr2", "videotestattr1"}
    ensures !h.CanInsertAttribute(offer, Attribute(key, value), media)
  {
    SupportedAttributesTable(key);
  }
}
