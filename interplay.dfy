/**
 * Properties that span the component, the audio service and the service
 * worker, which share one key rule and one origin-wide cache store.
 */
module Interplay {
  import opened Common
  import opened Caches
  import App
  import AudioService
  import ServiceWorker

  /**
   * When the environment can be read, a key the audio service accepts makes
   * the page report a key, and without AI Studio the page reports one
   * exactly when the service has one.
   */
  lemma KeyChecksAgree(envKey: Option<string>, studio: App.AiStudio)
    ensures AudioService.GetValidApiKey(envKey).Some? ==> App.ApiKeyStatus(EnvValue(envKey), studio)
    ensures App.ApiKeyStatus(EnvValue(envKey), App.NoAiStudio) <==> AudioService.GetValidApiKey(envKey).Some?
  {
  }

  /**
   * When reading the environment throws, the two checks disagree: the page
   * reports a key and hides its banner, while every word that is not cached
   * gets no audio.
   */
  lemma KeyChecksDisagreeOnThrow(studio: App.AiStudio)
    ensures App.ApiKeyStatus(EnvThrows, studio)
    ensures forall online, reply :: AudioService.AudioLookup(None, online, EnvThrows, reply) == AudioService.Lookup(None, None)
  {
  }

  /** The worker's activation keeps only its own cache, so the audio cache goes with the stale ones. */
  lemma AudioCacheIsStale()
    ensures AudioService.APP_CACHE_NAME != ServiceWorker.CACHE_NAME
  {
    assert |AudioService.APP_CACHE_NAME| == 26 && |ServiceWorker.CACHE_NAME| == 14;
  }

  /** A word whose audio is cached plays while offline, whatever the key and the speech service. */
  method CachedWordPlaysOffline(storage: CacheStorage, text: string, env: EnvRead,
                                reply: AudioService.SpeechReply) returns (audio: Option<AudioService.AudioBuffer>)
    requires storage.Valid()
    requires AudioService.APP_CACHE_NAME in storage.stores
    requires AudioService.CacheUrl(text) in storage.stores[AudioService.APP_CACHE_NAME]
    modifies storage
    ensures var body := old(storage.stores)[AudioService.APP_CACHE_NAME][AudioService.CacheUrl(text)].body;
      audio == AudioService.DecodedAudio(body, AudioService.SAMPLE_RATE, AudioService.NUM_CHANNELS)
    ensures storage.stores == old(storage.stores) && storage.names == old(storage.names)
  {
    audio := AudioService.FetchWordAudioBuffer(storage, text, false, env, reply);
  }

  /**
   * After the worker activates, no word plays while offline: the audio cache
   * was deleted, and the audio service reopens it empty.
   */
  method OfflineAfterActivation(storage: CacheStorage, text: string, env: EnvRead,
                                reply: AudioService.SpeechReply) returns (audio: Option<AudioService.AudioBuffer>)
    requires storage.Valid()
    modifies storage
    ensures audio.None?
    ensures AudioService.APP_CACHE_NAME in storage.stores && storage.stores[AudioService.APP_CACHE_NAME] == map[]
  {
    ServiceWorker.Activate(storage);
    AudioCacheIsStale();
    audio := AudioService.FetchWordAudioBuffer(storage, text, false, env, reply);
  }
}
