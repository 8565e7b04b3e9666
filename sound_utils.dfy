/**
 * The sound helper (utils/sound-utils.ts).
 *
 * It owns three audio elements and an `enabled` flag mirrored in
 * `localStorage` under "pomodoroSoundEnabled".  The one stored entry is an
 * optional string field, and `HTMLAudioElement.play()` is recorded in a log
 * of played sound names.
 */
module Sounds {
  import opened Wrappers

  /** The volume every sound is given at construction. */
  const Volume: real := 0.7

  datatype SoundName = WorkComplete | BreakComplete | ButtonClick

  /** The state of one audio element that the helper touches. */
  datatype Audio = Audio(src: string, volume: real, currentTime: real)

  function Source(name: SoundName): string
  {
    match name
    case WorkComplete => "/sounds/work-complete.mp3"
    case BreakComplete => "/sounds/break-complete.mp3"
    case ButtonClick => "/sounds/button-click.mp3"
  }

  /** The stored preference: absent means enabled, otherwise only "true" does. */
  function DecodePreference(stored: Option<string>): (enabled: bool)
    ensures stored == None ==> enabled
    ensures stored == Some("true") ==> enabled
    ensures stored.Some? && stored.value != "true" ==> !enabled
  {
    stored == None || stored.value == "true"
  }

  /** `enabled.toString()`. */
  function EncodePreference(enabled: bool): (text: string)
    ensures text == "true" || text == "false"
  {
    if enabled then "true" else "false"
  }

  /** What is written is read back as the same flag. */
  lemma PreferenceRoundTrip(enabled: bool)
    ensures DecodePreference(Some(EncodePreference(enabled))) == enabled
  {
  }

  /** Storing the flag read from an entry rewrites that entry only when it was absent or not canonical. */
  lemma PreferenceCanonical(stored: Option<string>)
    ensures Some(EncodePreference(DecodePreference(stored))) == stored <==>
      stored == Some("true") || stored == Some("false")
  {
  }

  class SoundUtils {
    const hasWindow: bool
    var sounds: map<SoundName, Audio>
    var enabled: bool
    /** The `localStorage` entry under "pomodoroSoundEnabled". */
    var stored: Option<string>
    var played: seq<SoundName>

    /**
     * All three sounds exist with their file and volume 0.7; in a browser
     * the flag always agrees with the stored entry.
     */
    ghost predicate Valid()
      reads this
    {
      && (forall name: SoundName :: name in sounds && sounds[name].src == Source(name) && sounds[name].volume == Volume)
      && (hasWindow ==> enabled == DecodePreference(stored))
    }

    /**
     * The private constructor.  `windowExists` is `typeof window !==
     * "undefined"`; `storage` is the stored entry at that moment.
     */
    constructor (windowExists: bool, storage: Option<string>)
      ensures Valid()
      ensures hasWindow == windowExists && stored == storage && played == []
      ensures enabled == if windowExists then DecodePreference(storage) else true
      ensures forall name: SoundName :: sounds[name] == Audio(Source(name), Volume, 0.0)
    {
      hasWindow := windowExists;
      stored := storage;
      played := [];
      var elements := map name: SoundName :: Audio(Source(name), 1.0, 0.0);
      enabled := true;
      if windowExists {
        enabled := DecodePreference(storage);
      }
      sounds := map name: SoundName :: elements[name].(volume := Volume);
    }

    /** `play`: nothing when disabled; otherwise rewind that one sound and play it. */
    method Play(name: SoundName)
      requires Valid()
      modifies this
      ensures Valid()
      ensures !old(enabled) ==> sounds == old(sounds) && played == old(played)
      ensures old(enabled) ==>
        sounds == old(sounds)[name := old(sounds)[name].(currentTime := 0.0)] &&
        played == old(played) + [name]
      ensures enabled == old(enabled) && stored == old(stored)
    {
      if !enabled {
        return;
      }
      sounds := sounds[name := sounds[name].(currentTime := 0.0)];
      played := played + [name];
    }

    /** `isEnabled`: reads the flag. */
    method IsEnabled() returns (result: bool)
      requires Valid()
      ensures result == enabled
      ensures hasWindow ==> result == DecodePreference(stored)
    {
      result := enabled;
    }

    /** `setEnabled`: sets the flag and, in a browser, stores "true" or "false". */
    method SetEnabled(value: bool)
      requires Valid()
      modifies this
      ensures Valid()
      ensures enabled == value
      ensures stored == if hasWindow then Some(EncodePreference(value)) else old(stored)
      ensures sounds == old(sounds) && played == old(played)
    {
      enabled := value;
      if hasWindow {
        stored := Some(EncodePreference(value));
      }
    }

    /** `toggleEnabled`: flips the flag, stores it, and returns the new value. */
    method ToggleEnabled() returns (result: bool)
      requires Valid()
      modifies this
      ensures Valid()
      ensures enabled == !old(enabled) && result == enabled
      ensures stored == if hasWindow then Some(EncodePreference(result)) else old(stored)
      ensures sounds == old(sounds) && played == old(played)
    {
      SetEnabled(!enabled);
      result := enabled;
    }
  }

  /**
   * Toggling twice gives back the flag and, in a browser, a stored entry
   * that reads as the same flag; the entry's text itself comes back only
   * when it was already "true" or "false".
   */
  method ToggleTwice(sound: SoundUtils) returns (first: bool, second: bool)
    requires sound.Valid()
    modifies sound
    ensures first == !old(sound.enabled) && second == old(sound.enabled)
    ensures sound.enabled == old(sound.enabled)
    ensures sound.hasWindow ==> DecodePreference(sound.stored) == DecodePreference(old(sound.stored))
    ensures sound.hasWindow ==>
      (sound.stored == old(sound.stored) <==> old(sound.stored) == Some("true") || old(sound.stored) == Some("false"))
    ensures !sound.hasWindow ==> sound.stored == old(sound.stored)
    ensures sound.sounds == old(sound.sounds) && sound.played == old(sound.played)
  {
    first := sound.ToggleEnabled();
    second := sound.ToggleEnabled();
    PreferenceCanonical(old(sound.stored));
  }

  /** The holder of `SoundUtils.instance`, the static slot behind `getInstance`. */
  class SoundUtilsSlot {
    var instance: SoundUtils?

    constructor ()
      ensures instance == null
    {
      instance := null;
    }

    /** `getInstance`: constructed on the first call, the same object afterwards. */
    method GetInstance(windowExists: bool, storage: Option<string>) returns (sound: SoundUtils)
      modifies this
      ensures instance == sound
      ensures old(instance) != null ==> sound == old(instance)
      ensures old(instance) == null ==>
        fresh(sound) && sound.Valid() && sound.hasWindow == windowExists && sound.stored == storage &&
        sound.enabled == (if windowExists then DecodePreference(storage) else true)
    {
      if instance == null {
        instance := new SoundUtils(windowExists, storage);
      }
      sound := instance;
    }
  }
}
