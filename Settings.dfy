/**
 * Where the API key comes from and how it is saved.
 *
 * The key is looked up in the environment first and in the JSON config file
 * second; saving reads the config file, overwrites the key's entry and writes
 * the whole record back. The file's contents, and what reading it yields,
 * are values of `ConfigFile`.
 */
module Settings {
  import opened Wrappers

  /** The config file's entry that holds the key. */
  const ApiKeyField: string := "openai_api_key"

  /** What reading the config file yields. */
  datatype ConfigFile =
    | Absent                                  // there is no config file
    | Unreadable                              // it opens, but is not JSON
    | NonObject                               // it is JSON, but not a JSON object
    | Stored(entries: map<string, string>)    // it holds a JSON object

  /** The entries of a readable config, or none. */
  function Entries(config: ConfigFile): map<string, string>
  {
    if config.Stored? then config.entries else map[]
  }

  /**
   * The key at start-up: a non-empty environment value wins; otherwise the
   * config object's key entry when the file is there and is an object
   * (possibly no entry, giving none); otherwise none.
   */
  function LoadApiKey(env: Option<string>, config: ConfigFile): (key: Option<string>)
    ensures key.Some? ==> key == env || (config.Stored? && ApiKeyField in config.entries && key.value == config.entries[ApiKeyField])
  {
    if env.Some? && env.value != "" then env
    else match config
      case Stored(entries) => if ApiKeyField in entries then Some(entries[ApiKeyField]) else None
      case _ => None
  }

  /** A non-empty environment value is the key, whatever the config file holds. */
  lemma EnvironmentWins(env: string, config: ConfigFile)
    requires env != ""
    ensures LoadApiKey(Some(env), config) == Some(env)
  {
  }

  /**
   * Without a usable environment value the key is the config object's entry;
   * a missing config, one that is not JSON or a non-object config gives no key.
   */
  lemma ConfigFallback(env: Option<string>, config: ConfigFile)
    requires env.None? || env.value == ""
    ensures LoadApiKey(env, config).Some? <==> config.Stored? && ApiKeyField in config.entries
    ensures LoadApiKey(env, config).Some? ==> LoadApiKey(env, config).value == config.entries[ApiKeyField]
  {
  }

  /**
   * The record that saving `key` writes: the readable prior object with its
   * key entry set to `key`; an absent config, one that is not JSON or a
   * non-object config counts as empty.
   */
  function MergeConfig(prior: ConfigFile, key: string): (m: map<string, string>)
    ensures ApiKeyField in m && m[ApiKeyField] == key
    ensures m.Keys == Entries(prior).Keys + {ApiKeyField}
    ensures forall name :: name in Entries(prior) && name != ApiKeyField ==> m[name] == Entries(prior)[name]
    ensures !prior.Stored? ==> m == map[ApiKeyField := key]
  {
    Entries(prior)[ApiKeyField := key]
  }

  /**
   * Saving as the source writes it: a config file that is JSON but not an
   * object is kept as it is, and the item assignment on it raises, so nothing
   * is written (`None`).
   */
  function MergeConfigAsWritten(prior: ConfigFile, key: string): (m: Option<map<string, string>>)
    ensures prior != NonObject ==> m == Some(MergeConfig(prior, key))
    ensures prior == NonObject ==> m == None
  {
    match prior
    case Absent => Some(map[ApiKeyField := key])
    case Unreadable => Some(map[ApiKeyField := key])
    case NonObject => None
    case Stored(entries) => Some(entries[ApiKeyField := key])
  }

  /**
   * A config file holding, say, a JSON list: as written, saving a key fails,
   * although a file that is not JSON is meant to count as an empty record.
   */
  lemma NonObjectConfigBlocksSave(key: string)
    ensures MergeConfigAsWritten(NonObject, key) == None
    ensures MergeConfig(NonObject, key) == map[ApiKeyField := key]
  {
  }

  /**
   * After saving `key`, loading finds it unless a non-empty environment
   * value takes precedence.
   */
  lemma SaveThenLoad(env: Option<string>, prior: ConfigFile, key: string)
    ensures LoadApiKey(env, Stored(MergeConfig(prior, key))) ==
      if env.Some? && env.value != "" then env else Some(key)
  {
  }

  /** Saving two keys in turn leaves the record that saving the second alone would. */
  lemma LastSaveWins(prior: ConfigFile, first: string, second: string)
    ensures MergeConfig(Stored(MergeConfig(prior, first)), second) == MergeConfig(prior, second)
  {
  }

  /** The application's state that the settings operations touch. */
  class VoiceTranscriber {
    /** The key the application transcribes with, if any. */
    var apiKey: Option<string>
    /** The config file on disk. */
    var config: ConfigFile

    /** Start-up: the key is loaded from the environment or the config file. */
    constructor (env: Option<string>, config: ConfigFile)
      ensures this.config == config
      ensures apiKey == LoadApiKey(env, config)
    {
      this.config := config;
      apiKey := LoadApiKey(env, config);
    }

    /**
     * Save a key: start from an empty record, replace it by the config
     * file's object when that can be read, set the key entry, write the
     * record back and make the key the current one.
     */
    method SaveApiKey(key: string)
      modifies this
      ensures config == Stored(MergeConfig(old(config), key))
      ensures apiKey == Some(key)
    {
      var record: map<string, string> := map[];
      if config.Stored? {
        record := config.entries;
      }
      record := record[ApiKeyField := key];
      config := Stored(record);
      apiKey := Some(key);
    }
  }
}
