/**
 * The structured view of one SDP media description (an m-line) that the media
 * handler reads and extends: its kind, protocol token, ordered format list,
 * ordered attribute list and ordered bandwidth list (RFC 4566, section 5.14).
 */
module SdpMedia {

  /** `a=<key>:<value>`; a flag attribute has the empty value. */
  datatype Attribute = Attribute(key: string, value: string)

  /** `b=<bwtype>:<bandwidth>` (RFC 4566, section 5.8); the value is a guint. */
  datatype Bandwidth = Bandwidth(bwtype: string, bandwidth: nat)

  datatype Media = Media(
    media: string,
    port: nat,
    proto: string,
    formats: seq<string>,
    attributes: seq<Attribute>,
    bandwidths: seq<Bandwidth>)

  /** The four direction attributes of RFC 4566, section 6. */
  predicate IsDirection(attr: Attribute)
  {
    attr.key in {"sendrecv", "sendonly", "recvonly", "inactive"}
  }

  /** An attribute with the same key and value is already part of the media. */
  predicate IsAttributeInMedia(media: Media, attr: Attribute)
  {
    attr in media.attributes
  }

  /** Number of direction attributes in an attribute list. */
  function DirectionCount(attrs: seq<Attribute>): (n: nat)
    ensures n <= |attrs|
  {
    if attrs == [] then 0
    else DirectionCount(attrs[..|attrs| - 1]) + (if IsDirection(attrs[|attrs| - 1]) then 1 else 0)
  }

  /**
   * Appending one attribute raises the direction count by one exactly when it
   * is a direction attribute.
   */
  lemma DirectionCountAppend(attrs: seq<Attribute>, attr: Attribute)
    ensures DirectionCount(attrs + [attr]) == DirectionCount(attrs) + (if IsDirection(attr) then 1 else 0)
  {
    assert (attrs + [attr])[..|attrs|] == attrs;
  }

  /** No direction attribute is counted exactly when none is present. */
  lemma {:induction false} DirectionCountZero(attrs: seq<Attribute>)
    ensures DirectionCount(attrs) == 0 <==> forall i :: 0 <= i < |attrs| ==> !IsDirection(attrs[i])
  {
    if attrs != [] {
      var init := attrs[..|attrs| - 1];
      DirectionCountZero(init);
      assert forall i :: 0 <= i < |init| ==> init[i] == attrs[i];
    }
  }
}
