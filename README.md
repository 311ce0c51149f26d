# Kurento SDP media handler and media utilities, in Dafny

This project models two self-contained pieces of the Kurento media server's
common code and proves properties about them.

**The base SDP media handler** (`KmsSdpMediaHandler`) is the parent of every
protocol-specific handler (RTP/AVP, AVPF, SAVPF, SCTP) of the SDP offer/answer
agent. The model covers:

- the accept-attribute policy, which decides whether an attribute of an offered
  m-line may be copied into the answer. Duplicates are refused. A direction
  attribute (`sendrecv`, `sendonly`, `recvonly`, `inactive`; section 6 of
  RFC 4566) is accepted only while the answer has none. The eight supported
  names (`framerate`, `fmtp`, `lang`, `maxptime`, `mid`, `ptime`, `quality`,
  `setup`) go to their validator. `fmtp` is kept only when its payload number
  is one of the answer's formats. Any other name is kept only when a
  registered extension claims it;
- the handler's ordered bandwidth list (`b=` lines, section 5.8 of RFC 4566),
  which is copied into every offer and answer;
- the handler's ordered extension list, run when offer and answer attributes
  are added and when an answer is processed;
- the default protocol test;
- the "not implemented" results of the base class.

**The media utilities** cover:

- the REMB event manager, which keeps, per SSRC, the last reported bitrate and
  its time. It forgets reports older than the clear interval, keeps the
  minimum bitrate, and notifies a callback when that minimum changes;
- the keyframe-request throttle. On a pad with a parent element, a later
  request passes only when the last one that passed plus one second, summed
  modulo 2^64, lies before it. Usually that means more than one second apart.
  There are two exceptions: a pad without a parent lets every request through,
  and within one second of the clock's top the sum wraps, so even a request at
  the same instant passes;
- the protocol matcher `kms_utils_contains_proto`;
- `kms_utils_media_type_to_str`.

Layout:

- `wrappers.dfy`: `Option` and `Result`.
- `sdp_media.dfy`: the media description (`Media`, `Attribute`, `Bandwidth`)
  and direction counting.
- `sdp_media_handler.dfy`: validators, the supported-attribute table, the
  `MediaHandler` class and the policy lemmas.
- `kms_utils.dfy`: unsigned 64-bit clock arithmetic, the throttle (`Pad`),
  the protocol matcher and the media-type names.
- `remb_event_manager.dfy`: the `RembEventManager` class and the lemmas about
  a rescan.

Modelling choices:

- `GstClockTime` is unsigned 64-bit. Every subtraction and addition on it is
  written modulo 2^64 (`Sub64`, `Add64`). This matters because
  `oldest_remb_time` is set to `GST_CLOCK_TIME_NONE` (2^64 - 1) when the table
  empties, so `time - oldest_remb_time` wraps to `time + 1`.
- The clock is a parameter (`now`) of every operation that reads it. Within one
  call, all clock reads give the same value.
- The REMB hash table is a `map`. `calc_min` visits it in an unspecified
  order, modelled by choosing the next key with `:|`. Its contract therefore
  says that the new minimum is the running minimum over the survivors in *some*
  visiting order (`RescanOutcome`). The running minimum treats 0 as "nothing
  yet". So when a surviving bitrate is 0, the result depends on that order
  (`ScanMinDependsOnOrderWithZero`). The exact-minimum property is stated for
  nonzero bitrates (`RescanNonzeroMinimum`).
- The manager's callback is modelled as a log: `notifications` holds the values
  the callback has received, in order. `hasCallback` says whether a callback is
  installed.
- Media extensions are outside this model. Each extension is a value whose four
  hooks are arbitrary functions. An offer/answer hook returns whether it
  succeeded and the media as it left it.
- `sdp_utils_attribute_is_direction` and `sdp_utils_is_attribute_in_media` are
  not part of this model. They are made concrete: a direction attribute is one
  of the four RFC 4566 keys, and "in media" means an attribute with the same key
  and value is present.
- The `fmtp` validator splits the value on spaces the way `g_strsplit` does.
  The empty value yields no field, so it is never accepted (`FirstToken`).
- The protocol pattern `(P|.+/P|P/.+|.+/P/.+)` is compiled with GLib's default
  newline convention and matched with `G_REGEX_MATCH_ANCHORED`, which anchors
  at the start only. Under that convention `.` matches no line end: LF, CR,
  VT, FF, NEL, U+2028 and U+2029 (`IsLineEnd`). The reference `AnchoredMatch`
  states the four alternatives as "matches a prefix". `ContainsProto` is the
  scan proved equal to it. As a result, trailing text is accepted ("RTP/AVPF"
  contains "RTP/AVP"), but a line end before `/P` is not ("a\r/RTP/AVP" does
  not contain "RTP/AVP").

## Model

| member | source | states |
|---|---|---|
| SdpMedia.DirectionCountZero | src/gst-plugins/commons/sdpagent/kmssdpmediahandler.c:249-266 | no direction attribute is counted exactly when no attribute of the list is a direction |
| SdpMediaHandler.ExtensionsClaim | src/gst-plugins/commons/sdpagent/kmssdpmediahandler.c:292-301 | asking the extensions in registration order, stopping at the first claim, answers true exactly when some extension claims the attribute |
| SdpMediaHandler.ApplyOfferExtensions | src/gst-plugins/commons/sdpagent/kmssdpmediahandler.c:341-348 | each extension's offer hook runs on the media in registration order, failures ignored; hooks that leave the media alone leave it unchanged |
| SdpMediaHandler.ApplyAnswerExtensions | src/gst-plugins/commons/sdpagent/kmssdpmediahandler.c:378-387 | each extension's answer hook runs on the answer in registration order, failures ignored; hooks that leave the answer alone leave it unchanged |
| SdpMediaHandler.ApplyOfferExtensionsLast | src/gst-plugins/commons/sdpagent/kmssdpmediahandler.c:341-348 | an extension registered last runs its offer hook after all the earlier ones, on their result |
| SdpMediaHandler.ApplyAnswerExtensionsLast | src/gst-plugins/commons/sdpagent/kmssdpmediahandler.c:378-387 | an extension registered last runs its answer hook after all the earlier ones, on their result |
| SdpMediaHandler.WithBandwidths | src/gst-plugins/commons/sdpagent/kmssdpmediahandler.c:333-339 | the media keeps its own bandwidth lines first, followed by the handler's lines in order; nothing else changes |
| SdpMediaHandler.UpToSpace | src/gst-plugins/commons/sdpagent/kmssdpmediahandler.c:55 | the result is the longest space-free prefix of the value |
| SdpMediaHandler.FirstToken | src/gst-plugins/commons/sdpagent/kmssdpmediahandler.c:55-64 | the empty value has no first field; otherwise the first field is a space-free prefix ending at a space or at the end |
| SdpMediaHandler.HasFormat | src/gst-plugins/commons/sdpagent/kmssdpmediahandler.c:58-68 | the early-exit search finds the format exactly when it is in the answer's format list |
| SdpMediaHandler.DefaultAcceptAttribute | src/gst-plugins/commons/sdpagent/kmssdpmediahandler.c:40-45 | the default validator accepts every attribute |
| SdpMediaHandler.AcceptFmtpAttribute | src/gst-plugins/commons/sdpagent/kmssdpmediahandler.c:47-73 | an fmtp is accepted exactly when the first field of its value equals one of the answer's formats |
| SdpMediaHandler.Validate | src/gst-plugins/commons/sdpagent/kmssdpmediahandler.c:288 | the validator of a table entry: the default one accepts anything; the fmtp one accepts exactly when the first field of the value is one of the answer's formats |
| SdpMediaHandler.Lookup | src/gst-plugins/commons/sdpagent/kmssdpmediahandler.c:284-290 | no entry is found exactly when no table name equals the key; a found validator belongs to an entry with that name |
| SdpMediaHandler.IsDirectionAttrPresent | src/gst-plugins/commons/sdpagent/kmssdpmediahandler.c:249-266 | true exactly when some attribute of the media is a direction attribute |
| SdpMediaHandler.MediaHandler.constructor | src/gst-plugins/commons/sdpagent/kmssdpmediahandler.c:436-443 | a new handler has its protocol and empty bandwidth and extension lists |
| SdpMediaHandler.MediaHandler.CreateOffer | src/gst-plugins/commons/sdpagent/kmssdpmediahandler.c:184-192 | the base handler always fails with the unexpected-error code |
| SdpMediaHandler.MediaHandler.CreateAnswer | src/gst-plugins/commons/sdpagent/kmssdpmediahandler.c:194-202 | the base handler always fails with the unexpected-error code |
| SdpMediaHandler.MediaHandler.IntersectSdpMedias | src/gst-plugins/commons/sdpagent/kmssdpmediahandler.c:304-313 | the base handler always fails with the unexpected-error code |
| SdpMediaHandler.MediaHandler.InitOffer | src/gst-plugins/commons/sdpagent/kmssdpmediahandler.c:315-323 | the base handler always fails with the unexpected-error code |
| SdpMediaHandler.MediaHandler.InitAnswer | src/gst-plugins/commons/sdpagent/kmssdpmediahandler.c:353-361 | the base handler always fails with the unexpected-error code |
| SdpMediaHandler.MediaHandler.ManageProtocol | src/gst-plugins/commons/sdpagent/kmssdpmediahandler.c:232-238 | the default test holds exactly when the offered protocol equals the handler's protocol (both unset counts as equal) |
| SdpMediaHandler.MediaHandler.AddBandwidth | src/gst-plugins/commons/sdpagent/kmssdpmediahandler.c:222-230 | the bandwidth is appended at the end of the list; the extensions are unchanged |
| SdpMediaHandler.MediaHandler.AddMediaExtension | src/gst-plugins/commons/sdpagent/kmssdpmediahandler.c:240-247 | the extension is appended at the end of the list, the result is always true, and the bandwidths are unchanged |
| SdpMediaHandler.MediaHandler.CanInsertAttribute | src/gst-plugins/commons/sdpagent/kmssdpmediahandler.c:268-302 | an accepted attribute is never already in the answer; an accepted direction attribute finds no direction attribute in the answer |
| SdpMediaHandler.MediaHandler.AddOfferAttributes | src/gst-plugins/commons/sdpagent/kmssdpmediahandler.c:325-351 | always succeeds; the offer gains the handler's bandwidths after its own, then passes through each extension's offer hook in order, failures included |
| SdpMediaHandler.MediaHandler.AddAnswerAttributes | src/gst-plugins/commons/sdpagent/kmssdpmediahandler.c:363-390 | always succeeds; the answer gains the handler's bandwidths after its own, then passes through each extension's answer hook in order, failures included |
| SdpMediaHandler.MediaHandler.ProcessAnswer | src/gst-plugins/commons/sdpagent/kmssdpmediahandler.c:204-220 | succeeds exactly when every extension succeeds; on failure, the last extension asked is the first one that failed, and later ones are not asked |
| SdpMediaHandler.SupportedAttributesTable | src/gst-plugins/commons/sdpagent/kmssdpmediahandler.c:81-91 | the table knows exactly the eight names; `fmtp` maps to its own validator, the other seven to the default |
| SdpMediaHandler.FmtpAcceptedIff | src/gst-plugins/commons/sdpagent/kmssdpmediahandler.c:47-73 | a new fmtp attribute is inserted exactly when the first field of its value is one of the answer's formats |
| SdpMediaHandler.SupportedNameIgnoresExtensions | src/gst-plugins/commons/sdpagent/kmssdpmediahandler.c:284-290 | for a supported name, two handlers with any extensions decide alike, and every name except fmtp is accepted |
| SdpMediaHandler.UnknownNameNeedsExtension | src/gst-plugins/commons/sdpagent/kmssdpmediahandler.c:292-301 | any other new, non-direction attribute is inserted exactly when one of the handler's extensions claims it |
| SdpMediaHandler.DirectionAcceptedIff | src/gst-plugins/commons/sdpagent/kmssdpmediahandler.c:280-282 | a new direction attribute is inserted exactly when the answer has no direction attribute yet |
| SdpMediaHandler.InsertKeepsAnswerWellFormed | src/gst-plugins/commons/sdpagent/kmssdpmediahandler.c:276-282 | appending an accepted attribute keeps the answer free of duplicates and with at most one direction attribute |
| SdpMediaHandler.FirstTokenOfFmtp | src/gst-plugins/commons/sdpagent/kmssdpmediahandler.c:55-64 | the first field of `<pt> <params>` is the payload number `<pt>` |
| SdpMediaHandler.FmtpScenario | tests/check/element/sdp_agent.c:1663-1709 | with only payload 97 in the answer, fmtp:96 and fmtp:111 are dropped and fmtp:97 is kept |
| SdpMediaHandler.UnknownAttributeDropped | tests/check/element/sdp_agent.c:1599-1625 | a handler without extensions drops the unknown test attributes of the offer |
| KmsUtils.Add64 | src/gst-plugins/commons/kmsutils.c:368 | clock addition wraps past 2^64 |
| KmsUtils.Sub64 | src/gst-plugins/commons/kmsutils.c:679 | clock subtraction is the distance for a later time and wraps by 2^64 otherwise |
| KmsUtils.SubNoneWraps | src/gst-plugins/commons/kmsutils.c:817 | subtracting `GST_CLOCK_TIME_NONE` from a time gives that time plus one, modulo 2^64 |
| KmsUtils.DispersionElapsed | src/gst-plugins/commons/kmsutils.c:368 | without wrap-around, a later request passes exactly when it comes more than one second after the last passing one; when last + 1 s passes 2^64, it passes exactly when it comes after the wrapped sum |
| KmsUtils.DispersionWrapsNearTop | src/gst-plugins/commons/kmsutils.c:368 | within one second of the clock's top, the addition wraps and a request at the same instant passes |
| KmsUtils.Pad.constructor | src/gst-plugins/commons/kmsutils.c:359-361 | a pad starts with no recorded request time |
| KmsUtils.Pad.CheckLastRequestTime | src/gst-plugins/commons/kmsutils.c:339-376 | without a parent: always passes, nothing recorded; first request: passes and records `now`; later: passes exactly when last + 1 s (mod 2^64) < now, and `now` is recorded only then |
| KmsUtils.SlashProtoFrom | src/gst-plugins/commons/kmsutils.c:899-902 | the scan finds `/proto` at or after index i, preceded by text without a line end, exactly when such an index exists |
| KmsUtils.ContainsProto | src/gst-plugins/commons/kmsutils.c:892-907 | true exactly when one of the four alternatives of the start-anchored pattern matches a prefix of the term, `.` matching no line end |
| KmsUtils.ContainsProtoDtls | src/gst-plugins/commons/kmsutils.c:892-907 | "UDP/TLS/RTP/SAVPF" contains "RTP/SAVPF" |
| KmsUtils.ContainsProtoTrailingText | src/gst-plugins/commons/kmsutils.c:892-907 | only the start is anchored: "RTP/AVPF" contains "RTP/AVP" and "RTP/SAVPF" contains "SAVP" |
| KmsUtils.ContainsProtoStopsAtLineEnd | src/gst-plugins/commons/kmsutils.c:897-900 | `.+` cannot run across a line end: "a\r/RTP/AVP" does not contain "RTP/AVP" |
| KmsUtils.MediaTypeToStr | src/gst-plugins/commons/kmsutils.c:966-979 | Video is named "video", Audio "audio", Data "data", and any other type "<unsupported>", each exactly |

| RembEvents.Stale | src/gst-plugins/commons/kmsutils.c:679 | a stamp no later than now is stale exactly when more than the interval has passed; a stamp later than now wraps and is stale unless it lies at least 2^64 minus the interval ahead (the same test is made at lines 734 and 817) |
| RembEvents.NextMin | src/gst-plugins/commons/kmsutils.c:685-689 | a running value of 0 takes the bitrate; otherwise the result is the smaller of the two |
| RembEvents.ScanMin | src/gst-plugins/commons/kmsutils.c:685-689 | the running minimum after visiting the bitrates in order is 0 or one of them |
| RembEvents.ScanMinIsLeast | src/gst-plugins/commons/kmsutils.c:685-689 | with all bitrates nonzero, the running minimum is one of them and no greater than any, in any visiting order |
| RembEvents.ScanMinDependsOnOrderWithZero | src/gst-plugins/commons/kmsutils.c:685-689 | with a zero bitrate the result depends on the order: [0, 5] gives 5 and [5, 0] gives 0 |
| RembEvents.WithDefault | src/gst-plugins/commons/kmsutils.c:694-698 | a nonzero computed minimum is kept; a zero one is replaced by the default (which may itself be 0) |
| RembEvents.Notify | src/gst-plugins/commons/kmsutils.c:652-663 | the callback log grows by at most one entry, the new minimum, and does so exactly when the minimum changed and a callback is installed |
| RembEvents.RescanNonzeroMinimum | src/gst-plugins/commons/kmsutils.c:666-701 | after a rescan whose survivors all have nonzero bitrates, the minimum is exactly the least surviving bitrate |
| RembEvents.RescanEmpty | src/gst-plugins/commons/kmsutils.c:666-701 | when every entry is stale, the table empties, the minimum is the default, and the oldest time is `GST_CLOCK_TIME_NONE` |
| RembEvents.RescanMinimumSource | src/gst-plugins/commons/kmsutils.c:684-698 | the minimum after a rescan is the default or the bitrate of a surviving entry |
| RembEvents.RescanLeavesFreshOldest | src/gst-plugins/commons/kmsutils.c:679-700 | when an entry survives, the new oldest time is not stale at the same instant |
| RembEvents.EmptyTableRescansAgain | src/gst-plugins/commons/kmsutils.c:815-818 | with `GST_CLOCK_TIME_NONE` as the oldest time, any check at a time t with t + 1 beyond the interval finds it stale |
| RembEvents.RembEventManager.constructor | src/gst-plugins/commons/kmsutils.c:765-780 | a new manager has minimum 0, an empty table, the creation time as the oldest time, a 10 s clear interval and no callback |
| RembEvents.RembEventManager.SetCallback | src/gst-plugins/commons/kmsutils.c:827-838 | installs or removes the callback; nothing else changes |
| RembEvents.RembEventManager.SetClearInterval | src/gst-plugins/commons/kmsutils.c:840-845 | replaces the clear interval; nothing else changes |
| RembEvents.RembEventManager.GetClearInterval | src/gst-plugins/commons/kmsutils.c:847-851 | returns the clear interval |
| RembEvents.RembEventManager.SetMin | src/gst-plugins/commons/kmsutils.c:652-663 | stores the minimum; the callback receives it only when it differs from the old one and a callback is installed |
| RembEvents.RembEventManager.CalcMin | src/gst-plugins/commons/kmsutils.c:665-702 | removes exactly the stale entries; the oldest time is the least surviving stamp or `GST_CLOCK_TIME_NONE`; the minimum is the running minimum over the survivors in some order, or the default; the callback hears of a change |
| RembEvents.RembEventManager.UpdateMin | src/gst-plugins/commons/kmsutils.c:704-744 | stores the report. A bitrate below the minimum becomes the minimum directly. Otherwise the table is rescanned, with the bitrate as default, only when the report is new or changed and above the minimum, or the oldest time is stale; else nothing more changes |
| RembEvents.RembEventManager.GetMin | src/gst-plugins/commons/kmsutils.c:810-825 | rescans with default 0 exactly when the oldest time is stale, then returns the minimum |

## Left out

- The SDP agent, its state machine, the message context, BUNDLE groups, the
  payload manager and the protocol-specific handlers are not part of this
  model. Neither are the media extensions (SDES keys, connection addresses):
  their hooks are arbitrary functions here.
- The `SdpMessageContext` argument that the validators and extensions receive
  is not modelled. The base validators never read it.
- The `addr` and `addr-type` properties, GObject property access and
  finalization are plumbing and are not modelled. The handler keeps only its
  construct-only protocol.
- An attribute without a value (`NULL` in the SDP library) is modelled as the
  empty string. The case where `g_strsplit` receives `NULL` is not modelled.
- The error text that extensions log through `GError` is not modelled. Only the
  success flags are kept.
- `SdpMediaHandler.MediaHandler.ProcessAnswer`: `asked` is ghost. The
  extensions' side effects (such as recording the selected key) are outside
  this model, so "later extensions are skipped" is stated through that count.
- `Bandwidth.bandwidth` is a `nat` rather than a 32-bit `guint`. Values are
  only copied, never computed.
- The REMB manager's mutex, the pad probe that parses upstream REMB events
  (`remb_probe`, `kms_utils_remb_event_upstream_parse`), and the destroy
  functions are left out. The mutex only serialises calls, and the others are
  GStreamer plumbing. The operations are modelled as sequential.
- `RembEvents.RembEventManager.UpdateMin`: within one call, the source reads
  the clock up to three times (the local `time`, the entry stamp, and inside
  `calc_min`). The model uses one `now` for all three.
- `KmsUtils.ContainsProto`: `proto` is taken literally. The source splices it
  into the pattern unescaped, so regular-expression metacharacters in it are
  not modelled.
- The rest of `kmsutils.c` is left out: caps and element helpers, pad probes
  and blocking, the debug graph, UUIDs, random strings, URI validation, and
  connection names. All of it is GStreamer or OS plumbing, or depends on
  declarations that are not part of this model.
- The generated C++ server bindings and `kmssdpsession.c` are not part of this
  model.
