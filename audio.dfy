/**
 * The pronunciation-audio service: an API-key validator, the cache key built
 * from a normalised text, the base64-to-bytes copy, the reinterpretation of
 * the bytes as 16-bit PCM frames, and the lookaside flow that answers from
 * the audio cache, or asks the speech service and stores its reply.
 */
module AudioService {
  import opened Common
  import opened Text
  import opened Uri
  import opened Base64
  import opened Caches

  const APP_CACHE_NAME: string := "oxford-3000-audio-cache-v1"
  const KEY_PREFIX: string := "https://api.local/word-audio/"
  /** Both call sites decode at 24 kHz, one channel. */
  const SAMPLE_RATE: nat := 24000
  const NUM_CHANNELS: nat := 1

  // ---------------------------------------------------------------------------
  // API key

  /**
   * `getValidApiKey` on the value read from the environment: the key, unless
   * it is absent or a placeholder. When the read itself throws, the throw
   * reaches the catch of `fetchWordAudioBuffer` (see `AudioLookup`).
   */
  function GetValidApiKey(envKey: Option<string>): (key: Option<string>)
    ensures key.None? <==> envKey.None? || envKey.value == "" || envKey.value == "undefined" || envKey.value == "null"
    ensures key.Some? ==> key == envKey
  {
    match envKey
    case None => None
    case Some(k) => if k == "undefined" || k == "" || k == "null" then None else envKey
  }

  // ---------------------------------------------------------------------------
  // Cache key

  /** `text.toLowerCase().trim()`: a lower-case text with no white space at either end. */
  function NormalizedText(text: string): (r: string)
    ensures |r| <= |text|
    ensures ToLower(r) == r && Trim(r) == r
  {
    var lower := ToLower(text);
    TrimLowerCommute(lower);
    LowerIdempotent(text);
    TrimIdempotent(lower);
    Trim(lower)
  }

  /** The URL the audio of `text` is stored under. */
  function CacheKey(text: string): (key: string)
    ensures KEY_PREFIX <= key
    ensures forall i :: |KEY_PREFIX| <= i < |key| ==> IsUnreserved(key[i]) || key[i] == '%'
  {
    KEY_PREFIX + EncodeURIComponent(NormalizedText(text))
  }

  /** Normalising twice is normalising once. */
  lemma NormalizedTextIdempotent(text: string)
    ensures NormalizedText(NormalizedText(text)) == NormalizedText(text)
  {
    var lower := ToLower(text);
    TrimLowerCommute(Trim(lower));
    LowerIdempotent(Trim(lower));
    assert ToLower(Trim(lower)) == Trim(lower) by {
      TrimLowerCommute(lower);
      LowerIdempotent(text);
    }
    TrimIdempotent(lower);
  }

  /** A text and its normalised form share one cache entry. */
  lemma CacheKeyOfNormalized(text: string)
    ensures CacheKey(NormalizedText(text)) == CacheKey(text)
  {
    NormalizedTextIdempotent(text);
  }

  /** Two texts share a cache key exactly when they normalise to the same text. */
  lemma CacheKeyCollision(a: string, b: string)
    ensures CacheKey(a) == CacheKey(b) <==> NormalizedText(a) == NormalizedText(b)
  {
    var ea, eb := EncodeURIComponent(NormalizedText(a)), EncodeURIComponent(NormalizedText(b));
    if CacheKey(a) == CacheKey(b) {
      assert ea == CacheKey(a)[|KEY_PREFIX|..] && eb == CacheKey(b)[|KEY_PREFIX|..];
    }
    EncodeInjective(NormalizedText(a), NormalizedText(b));
  }
  const ORIGIN_ROOT: string := "https://api.local/"

  /**
   * The URL of the `Request` that `cache.match` and `cache.put` build from the
   * key string, which is what the cache compares. The encoded text is a single
   * path segment, since `/`, `?`, `#` and `%` are all escaped. The URL parser
   * drops a "." segment and lets ".." also remove the segment before it; any
   * other segment is kept as written.
   */
  function CacheUrl(text: string): (url: string)
    ensures KEY_PREFIX <= url || url == ORIGIN_ROOT
  {
    var segment := EncodeURIComponent(NormalizedText(text));
    if segment == "." then KEY_PREFIX
    else if segment == ".." then ORIGIN_ROOT
    else CacheKey(text)
  }

  /** The text whose key names the same URL: a lone "." names the directory itself, as the empty text does. */
  function DotFolded(t: string): string {
    if t == "." then "" else t
  }

  /** Only "." and ".." encode to "." and "..", and only the empty text to the empty segment. */
  lemma EncodeDots(t: string)
    ensures EncodeURIComponent(t) == "." <==> t == "."
    ensures EncodeURIComponent(t) == ".." <==> t == ".."
    ensures EncodeURIComponent(t) == "" <==> t == ""
  {
    assert EncodeURIComponent(".") == "." by {
      assert IsUnreserved('.');
      assert EncodeURIComponent(".") == EncodeChar('.') + EncodeURIComponent([]);
    }
    assert EncodeURIComponent("..") == ".." by {
      assert IsUnreserved('.');
      assert ".."[1..] == ".";
      assert EncodeURIComponent("..") == EncodeChar('.') + EncodeURIComponent(".");
      assert EncodeURIComponent(".") == EncodeChar('.') + EncodeURIComponent([]);
    }
    EncodeInjective(t, ".");
    EncodeInjective(t, "..");
    EncodeInjective(t, "");
  }

  /**
   * Two texts share a cache entry exactly when their normalised texts agree
   * once a lone "." is read as the empty text: ".." names the origin's root,
   * which no other text reaches.
   */
  lemma CacheUrlCollision(a: string, b: string)
    ensures CacheUrl(a) == CacheUrl(b) <==> DotFolded(NormalizedText(a)) == DotFolded(NormalizedText(b))
  {
    var ta, tb := NormalizedText(a), NormalizedText(b);
    EncodeDots(ta);
    EncodeDots(tb);
    CacheKeyCollision(a, b);
    if CacheUrl(a) == CacheUrl(b) {
      if ta == "." || tb == "." {
        assert CacheUrl(a) == KEY_PREFIX || CacheUrl(b) == KEY_PREFIX;
        assert |CacheUrl(a)| == |KEY_PREFIX|;
        assert |CacheUrl(b)| == |KEY_PREFIX|;
      }
    }
  }

  /** A lone "." and a blank text build different key strings but share one cache entry. */
  lemma DotSharesBlankEntry()
    ensures CacheKey(".") != CacheKey("   ")
    ensures CacheUrl(".") == CacheUrl("   ")
  {
    assert NormalizedText(".") == "." by {
      assert ToLower(".") == ".";
      TrimIsCore(".", 0, 1);
    }
    assert NormalizedText("   ") == "" by {
      assert ToLower("   ") == "   ";
      TrimAllSpace("   ");
    }
    EncodeDots(".");
    EncodeDots("");
  }


  // ---------------------------------------------------------------------------
  // decode

  /** What `charCodeAt` stored into a `Uint8Array` gives: the code modulo 256. */
  function Codes(binary: string): (bs: seq<byte>)
    ensures |bs| == |binary|
    ensures forall i :: 0 <= i < |binary| && (binary[i] as int) < 256 ==> bs[i] == binary[i] as int
  {
    seq(|binary|, i requires 0 <= i < |binary| => (binary[i] as int) % 256)
  }

  /** A binary string's codes are the bytes it spells. */
  lemma CodesOfBinaryString(bs: seq<byte>)
    ensures Codes(BinaryString(bs)) == bs
  {
  }

  /** `decode`: `atob`, then a byte-by-byte copy. None stands for the error `atob` throws. */
  method Decode(base64: string) returns (bytes: Option<array<byte>>)
    ensures bytes.None? <==> Atob(base64).None?
    ensures bytes.Some? ==> bytes.value[..] == Codes(Atob(base64).value)
    ensures bytes.Some? ==> fresh(bytes.value)
  {
    var binary := Atob(base64);
    if binary.None? {
      return None;
    }
    var s := binary.value;
    var a := new byte[|s|];
    for i := 0 to |s|
      invariant forall k :: 0 <= k < i ==> a[k] == (s[k] as int) % 256
    {
      a[i] := (s[i] as int) % 256;
    }
    return Some(a);
  }

  /** Base64 of some bytes decodes to exactly those bytes. */
  lemma DecodeBtoa(bs: seq<byte>)
    ensures Atob(Btoa(bs)).Some? && Codes(Atob(Btoa(bs)).value) == bs
  {
    AtobBtoa(bs);
    CodesOfBinaryString(bs);
  }

  // ---------------------------------------------------------------------------
  // decodeAudioData

  /** One little-endian 16-bit two's-complement sample. */
  function Int16At(lo: byte, hi: byte): int16 {
    var u := lo as int + 256 * hi as int;
    if u >= 0x8000 then u - 0x1_0000 else u
  }

  /** `new Int16Array(data.buffer)` on a little-endian platform. */
  function Samples(data: seq<byte>): (s: seq<int16>)
    requires |data| % 2 == 0
    ensures |s| == |data| / 2
  {
    if data == [] then [] else [Int16At(data[0], data[1])] + Samples(data[2..])
  }

  /** The little-endian bytes of 16-bit samples: the PCM format the speech service sends. */
  function PcmBytes(samples: seq<int16>): (data: seq<byte>)
    ensures |data| == 2 * |samples|
  {
    if samples == [] then []
    else
      var u := if samples[0] < 0 then samples[0] + 0x1_0000 else samples[0] as int;
      [u % 256, u / 256] + PcmBytes(samples[1..])
  }

  /** Reading PCM bytes as an `Int16Array` gives the samples back. */
  lemma {:induction false} SamplesOfPcmBytes(samples: seq<int16>)
    ensures Samples(PcmBytes(samples)) == samples
  {
    if samples != [] {
      var data := PcmBytes(samples);
      assert data[2..] == PcmBytes(samples[1..]);
      SamplesOfPcmBytes(samples[1..]);
      assert samples == [samples[0]] + samples[1..];
    }
  }

  /** An `AudioBuffer`: its sample rate, its length in frames, and the samples of each channel. */
  datatype AudioBuffer = AudioBuffer(sampleRate: nat, length: nat, channels: seq<seq<int16>>)

  lemma MulMonotone(a: nat, b: nat, m: nat)
    requires a <= b
    ensures a * m <= b * m
  {
  }

  /** Frame `i` of channel `c` is sample `i * numChannels + c`, inside the samples for every frame of the buffer. */
  lemma FrameIndexInRange(i: nat, c: nat, numChannels: nat, count: nat)
    requires c < numChannels && i < count / numChannels
    ensures i * numChannels + c < count
  {
    MulMonotone(i + 1, count / numChannels, numChannels);
    assert (count / numChannels) * numChannels <= count;
  }

  /** The samples of channel `c` of interleaved audio, for `frames` frames. */
  function Channel(samples: seq<int16>, numChannels: nat, c: nat): (ch: seq<int16>)
    requires c < numChannels
    ensures |ch| == |samples| / numChannels
  {
    seq(|samples| / numChannels, i requires 0 <= i < |samples| / numChannels =>
      FrameIndexInRange(i, c, numChannels, |samples|);
      samples[i * numChannels + c])
  }

  /**
   * What `decodeAudioData` resolves to, None where it throws: an odd byte
   * count (no `Int16Array` view), no channel, or no frame (`createBuffer`
   * refuses both).
   */
  function DecodedAudio(data: seq<byte>, sampleRate: nat, numChannels: nat): (r: Option<AudioBuffer>)
    ensures r.Some? <==> |data| % 2 == 0 && numChannels > 0 && |data| / 2 / numChannels > 0
    ensures r.Some? ==>
      && r.value.sampleRate == sampleRate && r.value.length == |data| / 2 / numChannels
      && |r.value.channels| == numChannels
      && forall c :: 0 <= c < numChannels ==> r.value.channels[c] == Channel(Samples(data), numChannels, c)
  {
    if |data| % 2 != 0 || numChannels == 0 || |data| / 2 / numChannels == 0 then None
    else
      var samples := Samples(data);
      Some(AudioBuffer(sampleRate, |samples| / numChannels,
        seq(numChannels, c requires 0 <= c < numChannels => Channel(samples, numChannels, c))))
  }

  /** With one channel, the buffer holds every sample, in order. */
  lemma MonoHoldsAllSamples(data: seq<byte>)
    requires |data| % 2 == 0 && |data| >= 2
    ensures DecodedAudio(data, SAMPLE_RATE, NUM_CHANNELS)
      == Some(AudioBuffer(SAMPLE_RATE, |data| / 2, [Samples(data)]))
  {
    var samples := Samples(data);
    var r := DecodedAudio(data, SAMPLE_RATE, NUM_CHANNELS);
    assert |samples| / 1 == |samples|;
    assert Channel(samples, 1, 0) == samples by {
      forall i | 0 <= i < |samples| ensures Channel(samples, 1, 0)[i] == samples[i] {
        assert i * 1 + 0 == i;
      }
    }
    assert r.value.channels == [samples];
  }

  /** The frame loop runs while `i * numChannels < count`: each round has `i < count`. */
  lemma FrameLoopBound(i: nat, numChannels: nat, count: nat)
    requires numChannels > 0 && i * numChannels < count
    ensures i < count
  {
    MulMonotone(1, numChannels, i);
  }

  /** When the frame loop stops, it has visited every frame of the buffer. */
  lemma FrameLoopCovers(i: nat, numChannels: nat, count: nat)
    requires numChannels > 0 && i * numChannels >= count
    ensures count / numChannels <= i
  {
    if i < count / numChannels {
      FrameIndexInRange(i, 0, numChannels, count);
    }
  }

  /**
   * The frame loop of `decodeAudioData` for one channel, over a buffer
   * channel of `count / numChannels` zeroed frames. The source's frame count
   * is a float: the loop runs while `i * numChannels < count`, and an extra
   * last round writes past the buffer's end, which a typed array ignores.
   */
  method FillChannel(samples: seq<int16>, numChannels: nat, channel: nat) returns (channelData: array<int16>)
    requires channel < numChannels
    ensures fresh(channelData)
    ensures channelData[..] == Channel(samples, numChannels, channel)
  {
    ghost var wanted := Channel(samples, numChannels, channel);
    var frameCount := |samples| / numChannels;
    channelData := new int16[frameCount];
    var i := 0;
    while i * numChannels < |samples|
      invariant 0 <= i <= |samples|
      invariant forall k :: 0 <= k < i && k < frameCount ==> channelData[k] == wanted[k]
      decreases |samples| - i
    {
      FrameLoopBound(i, numChannels, |samples|);
      if i < frameCount {
        FrameIndexInRange(i, channel, numChannels, |samples|);
        channelData[i] := samples[i * numChannels + channel];
      }
      i := i + 1;
    }
    FrameLoopCovers(i, numChannels, |samples|);
    assert channelData[..] == wanted;
  }

  /** `decodeAudioData`: the bytes as 16-bit samples, de-interleaved into a buffer's channels. */
  method DecodeAudioData(data: array<byte>, sampleRate: nat, numChannels: nat) returns (r: Option<AudioBuffer>)
    ensures r == DecodedAudio(data[..], sampleRate, numChannels)
  {
    if data.Length % 2 != 0 {
      return None;
    }
    var samples := Samples(data[..]);
    if numChannels == 0 || |samples| / numChannels == 0 {
      return None;
    }
    var frameCount := |samples| / numChannels;
    var channels: seq<seq<int16>> := [];
    var channel := 0;
    while channel < numChannels
      invariant 0 <= channel <= numChannels && |channels| == channel
      invariant forall c :: 0 <= c < channel ==> channels[c] == Channel(samples, numChannels, c)
    {
      var channelData := FillChannel(samples, numChannels, channel);
      channels := channels + [channelData[..]];
      channel := channel + 1;
    }
    r := Some(AudioBuffer(sampleRate, frameCount, channels));
    ghost var decoded := DecodedAudio(data[..], sampleRate, numChannels);
    assert decoded.Some?;
    assert decoded.value.channels == channels;
  }

  // ---------------------------------------------------------------------------
  // fetchWordAudioBuffer

  /** How the speech request ends: it throws, or it answers with the base64 audio at `candidates[0]...inlineData.data`, if any. */
  datatype SpeechReply = SpeechFails | SpeechAnswer(audioData: Option<string>)

  /** The outcome of one lookup: the audio handed back and the bytes written to the cache, if any. */
  datatype Lookup = Lookup(audio: Option<AudioBuffer>, stored: Option<seq<byte>>)

  /**
   * The decisions of `fetchWordAudioBuffer`, given what the audio cache
   * holds under the key. A hit is decoded and nothing else is consulted;
   * a miss gives nothing while offline or without a key; otherwise a
   * non-empty base64 answer is decoded, stored, then decoded as audio.
   * Every error, thrown where it may be, ends in null.
   */
  function AudioLookup(cached: Option<seq<byte>>, online: bool, env: EnvRead, reply: SpeechReply): (o: Lookup)
    ensures cached.Some? ==> o == Lookup(DecodedAudio(cached.value, SAMPLE_RATE, NUM_CHANNELS), None)
    ensures cached.None? && (!online || env.EnvThrows? || GetValidApiKey(env.key).None?) ==> o == Lookup(None, None)
    ensures cached.None? && reply.SpeechFails? ==> o == Lookup(None, None)
    ensures o.stored.Some? ==> o.audio == DecodedAudio(o.stored.value, SAMPLE_RATE, NUM_CHANNELS)
    ensures o.stored.Some? <==>
      && cached.None? && online && env.EnvValue? && GetValidApiKey(env.key).Some?
      && reply.SpeechAnswer? && reply.audioData.Some? && reply.audioData.value != ""
      && Atob(reply.audioData.value).Some?
    ensures o.stored.Some? ==> o.stored.value == Codes(Atob(reply.audioData.value).value)
    ensures o.audio.Some? ==> cached.Some? || o.stored.Some?
  {
    if cached.Some? then Lookup(DecodedAudio(cached.value, SAMPLE_RATE, NUM_CHANNELS), None)
    else if !online then Lookup(None, None)
    else if env.EnvThrows? || GetValidApiKey(env.key).None? then Lookup(None, None)
    else match reply
      case SpeechFails => Lookup(None, None)
      case SpeechAnswer(audioData) =>
        if audioData.None? || audioData.value == "" then Lookup(None, None)
        else match Atob(audioData.value)
          case None => Lookup(None, None)
          case Some(binary) =>
            var bytes := Codes(binary);
            Lookup(DecodedAudio(bytes, SAMPLE_RATE, NUM_CHANNELS), Some(bytes))
  }

  /** The audio cache as `caches.open` hands it out: the stored one, or a new empty one. */
  function AudioCache(stores: map<string, Cache>): Cache {
    if APP_CACHE_NAME in stores then stores[APP_CACHE_NAME] else map[]
  }

  /** The body stored under `key`, if any. */
  function CachedBody(cache: Cache, key: string): Option<seq<byte>> {
    if key in cache then Some(cache[key].body) else None
  }

  /**
   * `fetchWordAudioBuffer`: opens the audio cache (creating it when missing),
   * looks the key up, and on a miss asks the speech service, storing a
   * decodable reply as a 200 response before decoding it.
   */
  method FetchWordAudioBuffer(storage: CacheStorage, text: string, online: bool,
                              env: EnvRead, reply: SpeechReply) returns (audio: Option<AudioBuffer>)
    requires storage.Valid()
    modifies storage
    ensures storage.Valid() && APP_CACHE_NAME in storage.stores
    ensures var before := AudioCache(old(storage.stores));
      var o := AudioLookup(CachedBody(before, CacheUrl(text)), online, env, reply);
      && audio == o.audio
      && storage.stores == old(storage.stores)[APP_CACHE_NAME :=
           if o.stored.Some? then before[CacheUrl(text) := Response(200, o.stored.value)] else before]
    ensures storage.names == if APP_CACHE_NAME in old(storage.stores) then old(storage.names)
                             else old(storage.names) + [APP_CACHE_NAME]
  {
    var cacheKey := CacheUrl(text);
    audio := FetchByKey(storage, cacheKey, online, env, reply);
  }

  /** A cached response body, copied into a buffer and decoded as 24 kHz mono audio. */
  method DecodeStored(body: seq<byte>) returns (audio: Option<AudioBuffer>)
    ensures audio == DecodedAudio(body, SAMPLE_RATE, NUM_CHANNELS)
  {
    var bytes := new byte[|body|](i requires 0 <= i < |body| => body[i]);
    assert bytes[..] == body;
    audio := DecodeAudioData(bytes, SAMPLE_RATE, NUM_CHANNELS);
  }

  /** The body of `fetchWordAudioBuffer` once the cache key is known. */
  method FetchByKey(storage: CacheStorage, cacheKey: string, online: bool,
                    env: EnvRead, reply: SpeechReply) returns (audio: Option<AudioBuffer>)
    requires storage.Valid()
    modifies storage
    ensures storage.Valid() && APP_CACHE_NAME in storage.stores
    ensures var before := AudioCache(old(storage.stores));
      var o := AudioLookup(CachedBody(before, cacheKey), online, env, reply);
      && audio == o.audio
      && storage.stores == old(storage.stores)[APP_CACHE_NAME :=
           if o.stored.Some? then before[cacheKey := Response(200, o.stored.value)] else before]
    ensures storage.names == if APP_CACHE_NAME in old(storage.stores) then old(storage.names)
                             else old(storage.names) + [APP_CACHE_NAME]
  {
    ghost var before := AudioCache(storage.stores);
    ghost var o := AudioLookup(CachedBody(before, cacheKey), online, env, reply);
    storage.Open(APP_CACHE_NAME);
    assert storage.stores == old(storage.stores)[APP_CACHE_NAME := before];
    var cachedResponse := storage.Lookup(APP_CACHE_NAME, cacheKey);
    if cachedResponse.Some? {
      assert o == Lookup(DecodedAudio(cachedResponse.value.body, SAMPLE_RATE, NUM_CHANNELS), None);
      audio := DecodeStored(cachedResponse.value.body);
      return;
    }
    assert CachedBody(before, cacheKey).None?;
    audio := FetchMiss(storage, cacheKey, online, env, reply);
  }

  /** The miss path of `fetchWordAudioBuffer`, with the audio cache open. */
  method FetchMiss(storage: CacheStorage, cacheKey: string, online: bool,
                   env: EnvRead, reply: SpeechReply) returns (audio: Option<AudioBuffer>)
    requires storage.Valid() && APP_CACHE_NAME in storage.stores
    modifies storage
    ensures storage.Valid() && storage.names == old(storage.names)
    ensures var o := AudioLookup(None, online, env, reply);
      && audio == o.audio
      && storage.stores == if o.stored.Some?
           then old(storage.stores)[APP_CACHE_NAME := old(storage.stores)[APP_CACHE_NAME][cacheKey := Response(200, o.stored.value)]]
           else old(storage.stores)
  {
    ghost var o := AudioLookup(None, online, env, reply);
    if !online || env.EnvThrows? || GetValidApiKey(env.key).None? || reply.SpeechFails? {
      assert o == Lookup(None, None);
      return None;
    }
    var base64Audio := reply.audioData;
    if base64Audio.Some? && base64Audio.value != "" {
      var audioData := Decode(base64Audio.value);
      if audioData.None? {
        return None;
      }
      assert o.stored == Some(audioData.value[..]);
      storage.Put(APP_CACHE_NAME, cacheKey, Response(200, audioData.value[..]));
      audio := DecodeAudioData(audioData.value, SAMPLE_RATE, NUM_CHANNELS);
      return;
    }
    assert o == Lookup(None, None);
    return None;
  }
}
