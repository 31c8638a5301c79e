/**
 Stream negotiation (internal/sip/sip_handler.go) and the answer it is printed as
 (internal/sdp/sdp.go), on parsed session descriptions.
 */
module Sdp {
  import opened Bytes
  import opened Results
  import opened Text
  import opened Streams

  datatype Attribute = Attribute(key: string, value: string)

  datatype Media = Media(media: string, formats: seq<string>, attributes: seq<Attribute>)

  /** The parts of an rtpmap value that negotiation reads. */
  datatype Rtpmap = Rtpmap(payloadType: Byte, encoding: string, rate: int, channels: int)

  const TELEPHONE_EVENT := "telephone-event"
  const L16_NAME := "L16"

  function NameText(name: CodecName): (s: string) {
    match name
    case PCMU => "PCMU"
    case PCMA => "PCMA"
    case L16 => L16_NAME
    case Opus => "opus"
    case Pass => "PASS"
    case Other(text) => text
  }

  // ---- reading an offer ----

  /** "96 L16/8000/2": the payload type is narrowed to a byte, rate and channels have defaults. */
  function ParseRtpmap(value: string): (r: Option<Rtpmap>) {
    var parts := Split(value, ' ');
    if |parts| < 2 || Atoi(parts[0]).None? then None
    else
      var slash := Split(parts[1], '/');
      var rate := if |slash| >= 2 && Atoi(slash[1]).Some? then Atoi(slash[1]).value else 8000;
      var channels := if |slash| >= 3 && Atoi(slash[2]).Some? then Atoi(slash[2]).value else 1;
      Some(Rtpmap(Atoi(parts[0]).value % 256, slash[0], rate, channels))
  }

  predicate Maps(a: Attribute, encoding: string) {
    && a.key == "rtpmap"
    && ParseRtpmap(a.value).Some?
    && EqualFold(ParseRtpmap(a.value).value.encoding, encoding)
  }

  /** The first rtpmap attribute for an encoding name. */
  function GetDynamicPT(attributes: seq<Attribute>, encoding: string): (r: Option<Rtpmap>) {
    if attributes == [] then None
    else if Maps(attributes[0], encoding) then ParseRtpmap(attributes[0].value)
    else GetDynamicPT(attributes[1..], encoding)
  }

  function OfferedPtime(attributes: seq<Attribute>): (p: nat) {
    if attributes == [] then 20
    else if attributes[0].key == "ptime" then
      match Atoi(attributes[0].value)
      case Some(v) => if v > 0 then v else 20
      case None => 20
    else OfferedPtime(attributes[1..])
  }

  predicate Offers(m: Media, pt: Byte) {
    Decimal(pt) in m.formats
  }

  /** L16 when it is mapped and listed, whether or not its parameters are supported. */
  function OfferedL16(m: Media): (r: Option<Rtpmap>) {
    match GetDynamicPT(m.attributes, L16_NAME)
    case None => None
    case Some(map_) => if Offers(m, map_.payloadType) then Some(map_) else None
  }

  function FallbackCodec(m: Media): (r: Result<Codec>) {
    if Offers(m, PT_PCMU) then Success(NewCodecG711MuLaw())
    else if Offers(m, PT_PCMA) then Success(NewCodecG711ALaw())
    else Failure
  }

  /** An unsupported L16 is an error even when a G.711 fallback is listed. */
  function SelectCodec(ws: CodecName, m: Media): (r: Result<Codec>) {
    match ws
    case PCMU => if Offers(m, PT_PCMU) then Success(NewCodecG711MuLaw()) else Failure
    case PCMA => if Offers(m, PT_PCMA) then Success(NewCodecG711ALaw()) else Failure
    case Pass =>
      (match OfferedL16(m)
       case Some(l16) => NewCodecL16(l16.payloadType, l16.rate, l16.channels, true, true)
       case None => FallbackCodec(m))
    case L16 =>
      (match OfferedL16(m)
       case Some(l16) => NewCodecL16(l16.payloadType, l16.rate, l16.channels, true, true)
       case None => FallbackCodec(m))
    case _ => Failure
  }

  function DtmfType(m: Media): (pt: Byte) {
    match GetDynamicPT(m.attributes, TELEPHONE_EVENT)
    case None => 0
    case Some(map_) => if Offers(m, map_.payloadType) then map_.payloadType else 0
  }

  function AudioMedia(offer: seq<Media>): (m: Option<Media>) {
    if offer == [] then None
    else if offer[0].media == "audio" then Some(offer[0])
    else AudioMedia(offer[1..])
  }

  function Negotiate(ws: CodecName, offer: seq<Media>): (r: Result<Stream>) {
    match AudioMedia(offer)
    case None => Failure
    case Some(m) =>
      match SelectCodec(ws, m)
      case Failure => Failure
      case Success(codec) => Success(Stream(codec, OfferedPtime(m.attributes), DtmfType(m)))
  }

  // ---- what is chosen ----

  /** Attribute i is the first that maps the encoding. */
  ghost predicate FirstMapping(attributes: seq<Attribute>, encoding: string, i: nat) {
    i < |attributes| && Maps(attributes[i], encoding) && forall j :: 0 <= j < i ==> !Maps(attributes[j], encoding)
  }

  lemma {:induction false} SearchExact(attributes: seq<Attribute>, encoding: string)
    ensures GetDynamicPT(attributes, encoding).None? <==> forall i :: 0 <= i < |attributes| ==> !Maps(attributes[i], encoding)
    ensures forall i: nat :: FirstMapping(attributes, encoding, i) ==> GetDynamicPT(attributes, encoding) == ParseRtpmap(attributes[i].value)
  {
    if attributes != [] {
      var rest := attributes[1..];
      SearchExact(rest, encoding);
      forall i | 0 <= i < |attributes|
        ensures i > 0 ==> attributes[i] == rest[i - 1]
      {
      }
      forall i: nat | FirstMapping(attributes, encoding, i)
        ensures GetDynamicPT(attributes, encoding) == ParseRtpmap(attributes[i].value)
      {
        if i > 0 {
          assert !Maps(attributes[0], encoding);
          assert forall j :: 0 <= j < i - 1 ==> rest[j] == attributes[j + 1];
          assert FirstMapping(rest, encoding, i - 1);
        }
      }
    }
  }

  /** Only the first ptime attribute counts; a value that is not a positive number gives 20. */
  lemma {:induction false} PtimeExact(attributes: seq<Attribute>, i: nat)
    requires i <= |attributes| && forall j :: 0 <= j < i ==> attributes[j].key != "ptime"
    ensures i == |attributes| ==> OfferedPtime(attributes) == 20
    ensures i < |attributes| && attributes[i].key == "ptime" ==>
              var v := Atoi(attributes[i].value);
              OfferedPtime(attributes) == if v.Some? && v.value > 0 then v.value else 20
  {
    if i > 0 {
      assert forall j :: 0 <= j < i - 1 ==> attributes[1..][j] == attributes[j + 1];
      PtimeExact(attributes[1..], i - 1);
    }
  }

  lemma {:induction false} FirstAudio(offer: seq<Media>, i: nat)
    requires i <= |offer| && forall j :: 0 <= j < i ==> offer[j].media != "audio"
    ensures i == |offer| ==> AudioMedia(offer).None?
    ensures i < |offer| && offer[i].media == "audio" ==> AudioMedia(offer) == Some(offer[i])
  {
    if i > 0 {
      assert forall j :: 0 <= j < i - 1 ==> offer[1..][j] == offer[j + 1];
      FirstAudio(offer[1..], i - 1);
    }
  }

  /** L16 is mapped by attribute i, the first that maps it, and its type is listed. */
  ghost predicate ListsL16(m: Media, i: nat) {
    FirstMapping(m.attributes, "L16", i) && Offers(m, ParseRtpmap(m.attributes[i].value).value.payloadType)
  }

  lemma StaticTypes()
    ensures Decimal(PT_PCMU) == "0" && Decimal(PT_PCMA) == "8"
  {
  }

  lemma OfferedL16Exact(m: Media)
    ensures OfferedL16(m).None? <==> forall i: nat :: !ListsL16(m, i)
    ensures forall i: nat :: ListsL16(m, i) ==> OfferedL16(m) == ParseRtpmap(m.attributes[i].value)
  {
    SearchExact(m.attributes, "L16");
    if GetDynamicPT(m.attributes, "L16").Some? {
      var i := FirstIndex(m.attributes, "L16");
      assert ListsL16(m, i) <==> OfferedL16(m).Some?;
    }
  }

  lemma FirstIndex(attributes: seq<Attribute>, encoding: string) returns (i: nat)
    requires exists k :: 0 <= k < |attributes| && Maps(attributes[k], encoding)
    ensures FirstMapping(attributes, encoding, i)
  {
    i := 0;
    while !Maps(attributes[i], encoding)
      invariant i < |attributes| && forall j :: 0 <= j < i ==> !Maps(attributes[j], encoding)
      decreases |attributes| - i
    {
      i := i + 1;
    }
  }

  /**
   What the settings prefer. Under PASS and L16 a listed L16 mapping decides alone: it is taken
   when its rate and channels are supported and refuses the offer otherwise; without one, type 0
   goes before type 8. Under PCMU and PCMA only their own static type will do.
   */
  lemma CodecPreference(ws: CodecName, m: Media)
    ensures ws.Pass? || ws.L16? ==>
              && (forall i: nat :: ListsL16(m, i) ==>
                    var l16 := ParseRtpmap(m.attributes[i].value).value;
                    SelectCodec(ws, m) == if l16.rate in {8000, 16000, 24000, 32000, 44100, 48000} && l16.channels in {1, 2}
                                          then Success(Codec(L16, 2, l16.rate, l16.channels, l16.payloadType, true, true)) else Failure)
              && ((forall i: nat :: !ListsL16(m, i)) ==>
                    SelectCodec(ws, m) == if "0" in m.formats then Success(Codec(PCMU, 1, 8000, 1, 0, false, false))
                                          else if "8" in m.formats then Success(Codec(PCMA, 1, 8000, 1, 8, false, false)) else Failure)
    ensures ws.PCMU? ==> SelectCodec(ws, m) == if "0" in m.formats then Success(Codec(PCMU, 1, 8000, 1, 0, false, false)) else Failure
    ensures ws.PCMA? ==> SelectCodec(ws, m) == if "8" in m.formats then Success(Codec(PCMA, 1, 8000, 1, 8, false, false)) else Failure
    ensures !ws.Pass? && !ws.L16? && !ws.PCMU? && !ws.PCMA? ==> SelectCodec(ws, m).Failure?
  {
    StaticTypes();
    OfferedL16Exact(m);
  }

  /** A telephone-event type is negotiated exactly when the first mapping of the name has its type listed. */
  lemma EventExact(m: Media)
    ensures forall i: nat :: FirstMapping(m.attributes, "telephone-event", i) ==>
              var pt := ParseRtpmap(m.attributes[i].value).value.payloadType;
              DtmfType(m) == if Decimal(pt) in m.formats then pt else 0
    ensures (forall i :: 0 <= i < |m.attributes| ==> !Maps(m.attributes[i], "telephone-event")) ==> DtmfType(m) == 0
  {
    SearchExact(m.attributes, "telephone-event");
  }

  // ---- the loops of negotiateStream ----

  method FindAudio(offer: seq<Media>) returns (m: Option<Media>)
    ensures m == AudioMedia(offer)
  {
    for i := 0 to |offer|
      invariant AudioMedia(offer) == AudioMedia(offer[i..])
    {
      if offer[i].media == "audio" {
        return Some(offer[i]);
      }
    }
    m := None;
  }

  method FindPtime(attributes: seq<Attribute>) returns (ptime: nat)
    ensures ptime == OfferedPtime(attributes)
  {
    ptime := 20;
    for i := 0 to |attributes|
      invariant ptime == 20 && OfferedPtime(attributes) == OfferedPtime(attributes[i..])
    {
      if attributes[i].key == "ptime" {
        var v := Atoi(attributes[i].value);
        if v.Some? && v.value > 0 {
          ptime := v.value;
        }
        break;
      }
    }
  }

  method FindDynamicPT(attributes: seq<Attribute>, encoding: string) returns (r: Option<Rtpmap>)
    ensures r == GetDynamicPT(attributes, encoding)
  {
    for i := 0 to |attributes|
      invariant GetDynamicPT(attributes, encoding) == GetDynamicPT(attributes[i..], encoding)
    {
      if attributes[i].key == "rtpmap" {
        var parsed := ParseRtpmap(attributes[i].value);
        if parsed.Some? && EqualFold(parsed.value.encoding, encoding) {
          return parsed;
        }
      }
    }
    r := None;
  }

  /** The search through the format list that every candidate codec runs. */
  method HasFormat(formats: seq<string>, pt: Byte) returns (found: bool)
    ensures found <==> Decimal(pt) in formats
  {
    for i := 0 to |formats|
      invariant Decimal(pt) !in formats[..i]
    {
      if formats[i] == Decimal(pt) {
        return true;
      }
    }
    found := false;
  }

  method NegotiateStream(ws: CodecName, offer: seq<Media>) returns (r: Result<Stream>)
    ensures r == Negotiate(ws, offer)
  {
    var audio := FindAudio(offer);
    if audio.None? {
      return Failure;
    }
    var m := audio.value;
    var ptime := FindPtime(m.attributes);
    var codec: Option<Codec>, err := None, false;
    if ws == Pass || ws == L16 {
      var l16 := FindDynamicPT(m.attributes, L16_NAME);
      if l16.Some? {
        var offered := HasFormat(m.formats, l16.value.payloadType);
        if offered {
          var made := NewCodecL16(l16.value.payloadType, l16.value.rate, l16.value.channels, true, true);
          if made.Success? {
            codec := Some(made.value);
          } else {
            err := true;
          }
        }
      }
    }
    if codec.None? && (ws == Pass || ws == L16 || ws == PCMU) {
      var offered := HasFormat(m.formats, PT_PCMU);
      if offered {
        codec := Some(NewCodecG711MuLaw());
      }
    }
    if codec.None? && (ws == Pass || ws == L16 || ws == PCMA) {
      var offered := HasFormat(m.formats, PT_PCMA);
      if offered {
        codec := Some(NewCodecG711ALaw());
      }
    }
    if codec.None? || err {
      return Failure;
    }
    var dtmfPT := 0;
    var event := FindDynamicPT(m.attributes, TELEPHONE_EVENT);
    if event.Some? {
      var offered := HasFormat(m.formats, event.value.payloadType);
      if offered {
        dtmfPT := event.value.payloadType;
      }
    }
    r := Success(Stream(codec.value, ptime, dtmfPT));
  }

  // ---- the answer ----

  /** "%d %s/%d" with the channel count where it exceeds one. */
  function RtpmapText(pt: Byte, encoding: string, rate: nat, channels: nat): (s: string) {
    Decimal(pt) + " " + encoding + "/" + Decimal(rate) + if channels > 1 then "/" + Decimal(channels) else ""
  }

  function GenerateAnswer(s: Stream): (m: Media) {
    var codecMap := Attribute("rtpmap", RtpmapText(s.codec.payloadType, NameText(s.codec.name), s.codec.sampleRate, s.codec.channels));
    var base := [codecMap, Attribute("ptime", Decimal(s.ptime)), Attribute("sendrecv", "")];
    if s.dtmfPayloadType == 0 then
      Media("audio", [Decimal(s.codec.payloadType)], base)
    else
      Media("audio", [Decimal(s.codec.payloadType), Decimal(s.dtmfPayloadType)],
            base + [Attribute("rtpmap", RtpmapText(s.dtmfPayloadType, TELEPHONE_EVENT, s.codec.sampleRate, 1)),
                    Attribute("fmtp", Decimal(s.dtmfPayloadType) + " 0-16")])
  }

  /** The answer to a mu-law offer with telephone events, as it is printed. */
  lemma AnswerExample()
    ensures GenerateAnswer(Stream(NewCodecG711MuLaw(), 20, 101))
         == Media("audio", ["0", "101"],
                  [Attribute("rtpmap", "0 PCMU/8000"), Attribute("ptime", "20"), Attribute("sendrecv", ""),
                   Attribute("rtpmap", "101 telephone-event/8000"), Attribute("fmtp", "101 0-16")])
  {
    var a := GenerateAnswer(Stream(NewCodecG711MuLaw(), 20, 101));
    Numerals();
    PrintedMaps();
    assert Decimal(101) + " 0-16" == "101 0-16";
    assert |a.attributes| == 5;
    assert a.attributes[0].value == "0 PCMU/8000" && a.attributes[3].value == "101 telephone-event/8000";
  }

  lemma Numerals()
    ensures Decimal(0) == "0" && Decimal(20) == "20" && Decimal(101) == "101" && Decimal(8000) == "8000"
  {
    OneMoreDigit(2, 0);
    OneMoreDigit(1, 0);
    OneMoreDigit(10, 1);
    OneMoreDigit(8, 0);
    OneMoreDigit(80, 0);
    OneMoreDigit(800, 0);
    assert Decimal(0) == "0" && Decimal(20) == "20" && Decimal(10) == "10" && Decimal(80) == "80";
    assert Decimal(101) == "101" && Decimal(800) == "800" && Decimal(8000) == "8000";
  }

  lemma OneMoreDigit(n: nat, d: nat)
    requires n > 0 && d < 10
    ensures Decimal(10 * n + d) == Decimal(n) + [Digit(d)] && (n < 10 ==> Decimal(n) == [Digit(n)])
  {
    DivisionUnique(10 * n + d, n, d, 10);
  }

  lemma PrintedMaps()
    ensures RtpmapText(0, "PCMU", 8000, 1) == "0 PCMU/8000"
    ensures RtpmapText(101, TELEPHONE_EVENT, 8000, 1) == "101 telephone-event/8000"
  {
    Numerals();
  }

  // ---- reading the answer back ----

  predicate Plain(encoding: string) {
    ' ' !in encoding && '/' !in encoding
  }

  lemma NumeralsArePlain(s: string)
    requires forall i :: 0 <= i < |s| ==> IsNumeral(s[i])
    ensures Plain(s)
  {
  }

  /** The encoding parameters after the payload type, as printed. */
  function Parameters(encoding: string, rate: nat, channels: nat): (s: string) {
    encoding + "/" + (Decimal(rate) + if channels > 1 then "/" + Decimal(channels) else "")
  }

  lemma SplitTwo(a: string, b: string, sep: char)
    requires sep !in a && sep !in b
    ensures Split(a + [sep] + b, sep) == [a, b]
  {
    SplitFirst(a, sep, b);
    SplitWhole(b, sep);
  }

  lemma SplitThree(a: string, b: string, c: string, sep: char)
    requires sep !in a && sep !in b && sep !in c
    ensures Split(a + [sep] + (b + [sep] + c), sep) == [a, b, c]
  {
    SplitFirst(a, sep, b + [sep] + c);
    SplitTwo(b, c, sep);
  }

  lemma ParametersSplit(encoding: string, rate: nat, channels: nat)
    requires Plain(encoding)
    ensures Split(Parameters(encoding, rate, channels), '/')
         == [encoding, Decimal(rate)] + if channels > 1 then [Decimal(channels)] else []
    ensures ' ' !in Parameters(encoding, rate, channels)
  {
    NumeralsArePlain(Decimal(rate));
    NumeralsArePlain(Decimal(channels));
    if channels > 1 {
      SplitThree(encoding, Decimal(rate), Decimal(channels), '/');
      assert Decimal(rate) + "/" + Decimal(channels) == Decimal(rate) + ("/" + Decimal(channels));
    } else {
      SplitTwo(encoding, Decimal(rate), '/');
      assert Decimal(rate) + "" == Decimal(rate);
    }
  }

  /** What negotiation makes of the parts of an rtpmap with usable numbers. */
  lemma PartsRead(value: string, pt: string, parameters: string, encoding: string, rate: string, channels: string)
    requires Atoi(pt).Some? && Atoi(rate).Some? && Atoi(channels).Some?
    requires Split(value, ' ') == [pt, parameters]
    requires Split(parameters, '/') == [encoding, rate] || Split(parameters, '/') == [encoding, rate, channels]
    ensures ParseRtpmap(value) == Some(Rtpmap(Atoi(pt).value % 256, encoding, Atoi(rate).value,
                                              if |Split(parameters, '/')| >= 3 then Atoi(channels).value else 1))
  {
  }

  /** A printed rtpmap reads back as what was printed. */
  lemma RtpmapRoundTrip(pt: Byte, encoding: string, rate: nat, channels: nat)
    requires Plain(encoding) && rate <= MAX_INT && 1 <= channels <= MAX_INT
    ensures ParseRtpmap(RtpmapText(pt, encoding, rate, channels)) == Some(Rtpmap(pt, encoding, rate, channels))
  {
    var value, parameters := RtpmapText(pt, encoding, rate, channels), Parameters(encoding, rate, channels);
    assert value == Decimal(pt) + " " + parameters;
    NumeralsArePlain(Decimal(pt));
    ParametersSplit(encoding, rate, channels);
    SplitTwo(Decimal(pt), parameters, ' ');
    AtoiOfDecimal(pt);
    AtoiOfDecimal(rate);
    AtoiOfDecimal(channels);
    PartsRead(value, Decimal(pt), parameters, encoding, Decimal(rate), Decimal(channels));
  }

  /** Without rate and channels an rtpmap means 8000 Hz and one channel; a large type keeps its low eight bits. */
  lemma RtpmapDefaults(n: nat, encoding: string)
    requires Plain(encoding) && n <= MAX_INT
    ensures ParseRtpmap(Decimal(n) + " " + encoding) == Some(Rtpmap(n % 256, encoding, 8000, 1))
  {
    NumeralsArePlain(Decimal(n));
    SplitTwo(Decimal(n), encoding, ' ');
    SplitWhole(encoding, '/');
    AtoiOfDecimal(n);
  }

  /** A rate that is no number counts as missing. */
  lemma RtpmapRate(n: nat, encoding: string, rate: string)
    requires Plain(encoding) && Plain(rate) && n <= MAX_INT
    ensures ParseRtpmap(Decimal(n) + " " + (encoding + "/" + rate))
         == Some(Rtpmap(n % 256, encoding, if Atoi(rate).Some? then Atoi(rate).value else 8000, 1))
  {
    NumeralsArePlain(Decimal(n));
    assert ' ' !in encoding + "/" + rate;
    SplitTwo(Decimal(n), encoding + "/" + rate, ' ');
    SplitTwo(encoding, rate, '/');
    AtoiOfDecimal(n);
  }

  lemma DecimalInjective(a: nat, b: nat)
    ensures Decimal(a) == Decimal(b) <==> a == b
  {
    ValueOfDecimal(a);
    ValueOfDecimal(b);
  }

  lemma NamesDiffer()
    ensures !EqualFold("PCMU", L16_NAME) && !EqualFold("PCMA", L16_NAME)
    ensures !EqualFold(TELEPHONE_EVENT, L16_NAME) && !EqualFold(L16_NAME, TELEPHONE_EVENT)
    ensures !EqualFold("PCMU", TELEPHONE_EVENT) && !EqualFold("PCMA", TELEPHONE_EVENT)
  {
    assert |ToUpper("PCMU")| == 4 && |ToUpper("PCMA")| == 4 && |ToUpper(L16_NAME)| == 3;
    assert |ToUpper(TELEPHONE_EVENT)| == 15;
  }

  /** The streams accepted offers lead to. */
  lemma AcceptedIsNegotiable(ws: CodecName, offer: seq<Media>)
    requires Negotiate(ws, offer).Success?
    ensures Negotiable(ws, Negotiate(ws, offer).value)
    ensures Negotiate(ws, offer).value.ptime <= MAX_INT
  {
    PtimeBound(AudioMedia(offer).value.attributes);
  }

  lemma PtimeBound(attributes: seq<Attribute>)
    ensures 0 < OfferedPtime(attributes) <= MAX_INT
  {
    if attributes != [] { PtimeBound(attributes[1..]); }
  }

  lemma PtimeSkips(a: Attribute, rest: seq<Attribute>)
    ensures a.key != "ptime" ==> OfferedPtime([a] + rest) == OfferedPtime(rest)
  {
    assert ([a] + rest)[1..] == rest;
  }

  lemma SearchStep(a: Attribute, rest: seq<Attribute>, encoding: string)
    ensures GetDynamicPT([a] + rest, encoding)
         == if Maps(a, encoding) then ParseRtpmap(a.value) else GetDynamicPT(rest, encoding)
  {
    assert ([a] + rest)[1..] == rest;
  }

  /** The ptime and sendrecv attributes map nothing. */
  lemma PlainAttributes(ptime: string, rest: seq<Attribute>, encoding: string)
    ensures GetDynamicPT([Attribute("ptime", ptime)] + ([Attribute("sendrecv", "")] + rest), encoding) == GetDynamicPT(rest, encoding)
  {
    SearchStep(Attribute("ptime", ptime), [Attribute("sendrecv", "")] + rest, encoding);
    SearchStep(Attribute("sendrecv", ""), rest, encoding);
  }

  /** The last two attributes map the telephone event and nothing else. */
  lemma ToneAttributes(pt: Byte, rate: nat, fmtp: string, encoding: string)
    requires rate <= MAX_INT && (encoding == L16_NAME || encoding == TELEPHONE_EVENT)
    ensures GetDynamicPT([Attribute("rtpmap", RtpmapText(pt, TELEPHONE_EVENT, rate, 1))] + ([Attribute("fmtp", fmtp)] + []), encoding)
         == if encoding == TELEPHONE_EVENT then Some(Rtpmap(pt, TELEPHONE_EVENT, rate, 1)) else None
  {
    var tone := Attribute("rtpmap", RtpmapText(pt, TELEPHONE_EVENT, rate, 1));
    RtpmapRoundTrip(pt, TELEPHONE_EVENT, rate, 1);
    NamesDiffer();
    SearchStep(tone, [Attribute("fmtp", fmtp)] + [], encoding);
    SearchStep(Attribute("fmtp", fmtp), [], encoding);
  }

  /** The attributes behind the first one never map L16, and map the telephone event exactly when there is one. */
  lemma AnswerTail(s: Stream, tail: seq<Attribute>, encoding: string)
    requires s.ptime <= MAX_INT && s.codec.sampleRate <= MAX_INT
    requires encoding == L16_NAME || encoding == TELEPHONE_EVENT
    requires tail == GenerateAnswer(s).attributes[1..]
    ensures GetDynamicPT(tail, encoding)
         == if encoding == TELEPHONE_EVENT && s.dtmfPayloadType != 0
            then Some(Rtpmap(s.dtmfPayloadType, TELEPHONE_EVENT, s.codec.sampleRate, 1)) else None
  {
    var ptime, sendrecv := Attribute("ptime", Decimal(s.ptime)), Attribute("sendrecv", "");
    if s.dtmfPayloadType == 0 {
      assert tail == [ptime] + ([sendrecv] + []);
      PlainAttributes(Decimal(s.ptime), [], encoding);
    } else {
      var tone := Attribute("rtpmap", RtpmapText(s.dtmfPayloadType, TELEPHONE_EVENT, s.codec.sampleRate, 1));
      var fmtp := Attribute("fmtp", Decimal(s.dtmfPayloadType) + " 0-16");
      assert tail == [ptime] + ([sendrecv] + ([tone] + ([fmtp] + [])));
      PlainAttributes(Decimal(s.ptime), [tone] + ([fmtp] + []), encoding);
      ToneAttributes(s.dtmfPayloadType, s.codec.sampleRate, Decimal(s.dtmfPayloadType) + " 0-16", encoding);
    }
  }

  /** What the search for an encoding finds in the attributes of an answer. */
  lemma AnswerSearch(ws: CodecName, s: Stream, encoding: string)
    requires Negotiable(ws, s) && s.ptime <= MAX_INT && (encoding == L16_NAME || encoding == TELEPHONE_EVENT)
    ensures GetDynamicPT(GenerateAnswer(s).attributes, encoding)
         == if encoding == L16_NAME then
              (if s.codec.name.L16? then Some(Rtpmap(s.codec.payloadType, L16_NAME, s.codec.sampleRate, s.codec.channels)) else None)
            else
              (if s.dtmfPayloadType != 0 then Some(Rtpmap(s.dtmfPayloadType, TELEPHONE_EVENT, s.codec.sampleRate, 1)) else None)
  {
    var a := GenerateAnswer(s).attributes;
    assert a == [a[0]] + a[1..];
    RtpmapRoundTrip(s.codec.payloadType, NameText(s.codec.name), s.codec.sampleRate, s.codec.channels);
    NamesDiffer();
    AnswerTail(s, a[1..], encoding);
    SearchStep(a[0], a[1..], encoding);
  }

  lemma AnswerPtime(s: Stream)
    requires 0 < s.ptime <= MAX_INT
    ensures OfferedPtime(GenerateAnswer(s).attributes) == s.ptime
  {
    var a := GenerateAnswer(s).attributes;
    assert a == [a[0]] + a[1..];
    AtoiOfDecimal(s.ptime);
    PtimeSkips(a[0], a[1..]);
  }

  /** The attributes of an answer say what was negotiated. */
  lemma AnswerAttributes(ws: CodecName, s: Stream)
    requires Negotiable(ws, s) && s.ptime <= MAX_INT
    ensures var a := GenerateAnswer(s).attributes;
            && OfferedPtime(a) == s.ptime
            && GetDynamicPT(a, L16_NAME)
            == (if s.codec.name.L16? then Some(Rtpmap(s.codec.payloadType, L16_NAME, s.codec.sampleRate, s.codec.channels)) else None)
            && GetDynamicPT(a, TELEPHONE_EVENT)
            == (if s.dtmfPayloadType != 0 then Some(Rtpmap(s.dtmfPayloadType, TELEPHONE_EVENT, s.codec.sampleRate, 1)) else None)
  {
    AnswerPtime(s);
    AnswerSearch(ws, s, L16_NAME);
    AnswerSearch(ws, s, TELEPHONE_EVENT);
  }

  /** Negotiating a single audio section, from what its searches find. */
  lemma NegotiateOne(ws: CodecName, m: Media)
    requires m.media == "audio"
    ensures Negotiate(ws, [m]) == match SelectCodec(ws, m)
                                  case Failure => Failure
                                  case Success(codec) => Success(Stream(codec, OfferedPtime(m.attributes), DtmfType(m)))
  {
  }

  /** The answer offers its own codec and telephone-event types and nothing else. */
  lemma AnswerFormats(s: Stream, pt: Byte)
    ensures Offers(GenerateAnswer(s), pt) <==> pt == s.codec.payloadType || (s.dtmfPayloadType != 0 && pt == s.dtmfPayloadType)
  {
    DecimalInjective(pt, s.codec.payloadType);
    DecimalInjective(pt, s.dtmfPayloadType);
  }

  /** Every negotiable stream comes back from its own answer, telephone-event type included. */
  lemma AnswerNegotiates(ws: CodecName, s: Stream)
    requires Negotiable(ws, s) && s.ptime <= MAX_INT
    ensures Negotiate(ws, [GenerateAnswer(s)]) == Success(s)
  {
    AnswerAttributes(ws, s);
    NegotiateOne(ws, GenerateAnswer(s));
    AnswerFormats(s, s.codec.payloadType);
    AnswerFormats(s, PT_PCMU);
    AnswerFormats(s, s.dtmfPayloadType);
  }

  /**
   Negotiation is a fixpoint through the answer: the answer's formats are among the offer's,
   and negotiating the answer under the same setting yields the identical stream.
   */
  lemma AnswerIsFixpoint(ws: CodecName, offer: seq<Media>)
    requires Negotiate(ws, offer).Success?
    ensures var s := Negotiate(ws, offer).value;
            && Negotiate(ws, [GenerateAnswer(s)]) == Success(s)
            && forall f :: f in GenerateAnswer(s).formats ==> f in AudioMedia(offer).value.formats
  {
    var s := Negotiate(ws, offer).value;
    AcceptedIsNegotiable(ws, offer);
    AnswerNegotiates(ws, s);
  }
}
