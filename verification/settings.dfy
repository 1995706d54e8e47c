/** The installer's settings: a JSON object loaded once and, after the disk is prepared,
    updated in place with the partition names the partitioning helper returns. Values are
    left abstract (`V`): the model only moves them between keys. */
module Settings {
  import opened Wrappers

  /** Keys `configure_systemd_bootloader` reads back after `prepare_disk`. */
  const RootPartKey: string := "root_part_name"
  const SwapPartKey: string := "swap_part_name"

  /** `settings.update(update)`: every key of `update` takes its value there, every other key
      keeps its old value, and no key is lost. */
  function Merge<V>(settings: map<string, V>, update: map<string, V>): (r: map<string, V>)
    ensures r.Keys == settings.Keys + update.Keys
    ensures forall k :: k in update ==> r[k] == update[k]
    ensures forall k :: k in settings && k !in update ==> r[k] == settings[k]
  {
    settings + update
  }

  /** Merging the same update twice changes nothing the first merge did not. */
  lemma MergeIdempotent<V>(settings: map<string, V>, update: map<string, V>)
    ensures Merge(Merge(settings, update), update) == Merge(settings, update)
  {
  }

  /** Subscripting a dict raises `KeyError` for a missing key. */
  datatype LookupError = KeyError(key: string)

  function Get<V>(settings: map<string, V>, key: string): (r: Result<V, LookupError>)
    ensures r.Ok? <==> key in settings
    ensures r.Ok? ==> r.value == settings[key]
    ensures r.Err? ==> r.error == KeyError(key)
  {
    if key in settings then Ok(settings[key]) else Err(KeyError(key))
  }

  /** The root and swap partition names `configure_systemd_bootloader` passes to `blkid`.
      The root name is read first, so a missing root key is the error reported even when the
      swap key is missing too. */
  function BootPartitions<V>(settings: map<string, V>): (r: Result<(V, V), LookupError>)
    ensures r.Ok? <==> RootPartKey in settings && SwapPartKey in settings
    ensures r.Ok? ==> r.value == (settings[RootPartKey], settings[SwapPartKey])
    ensures RootPartKey !in settings ==> r == Err(KeyError(RootPartKey))
    ensures RootPartKey in settings && SwapPartKey !in settings ==> r == Err(KeyError(SwapPartKey))
  {
    match Get(settings, RootPartKey)
    case Err(e) => Err(e)
    case Ok(root) =>
      match Get(settings, SwapPartKey)
      case Err(e) => Err(e)
      case Ok(swap) => Ok((root, swap))
  }

  /** After the merge, the bootloader reads the partition names the partitioning helper
      returned, whatever the settings file held under those keys before. */
  lemma BootPartitionsAfterMerge<V>(settings: map<string, V>, partNames: map<string, V>)
    requires RootPartKey in partNames && SwapPartKey in partNames
    ensures BootPartitions(Merge(settings, partNames))
            == Ok((partNames[RootPartKey], partNames[SwapPartKey]))
  {
  }
}
