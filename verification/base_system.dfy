/** `install_base_system`: the fixed order of the sixteen steps that install the base system,
    and what that order means for the settings the steps read. */
module BaseSystem {
  import opened Wrappers
  import opened Seqs
  import opened Settings

  datatype Step =
    | DisableAutoGenerateMirrorlist
    | UpdateSystemClock
    | SetupMirrors
    | PrepareDisk
    | InstallEssentialPackages
    | ConfigureFstab
    | ConfigureTimeZone
    | ConfigureLocalization
    | EnableMultilib
    | ConfigureNetwork
    | SetRootPassword
    | AddNormalUser
    | AllowWheelGroupSudo
    | IncreaseSudoTimestampTimeout
    | SetupHibernation
    | ConfigureSystemdBootloader

  /** The steps in the order `install_base_system` calls them. */
  const BaseSystemSteps: seq<Step> := [
    DisableAutoGenerateMirrorlist,
    UpdateSystemClock,
    SetupMirrors,
    PrepareDisk,
    InstallEssentialPackages,
    ConfigureFstab,
    ConfigureTimeZone,
    ConfigureLocalization,
    EnableMultilib,
    ConfigureNetwork,
    SetRootPassword,
    AddNormalUser,
    AllowWheelGroupSudo,
    IncreaseSudoTimestampTimeout,
    SetupHibernation,
    ConfigureSystemdBootloader
  ]

  /** Where `step` is called in `install_base_system`. */
  function Position(step: Step): (r: nat)
    ensures r < |BaseSystemSteps| && BaseSystemSteps[r] == step
  {
    match step
    case DisableAutoGenerateMirrorlist => 0
    case UpdateSystemClock => 1
    case SetupMirrors => 2
    case PrepareDisk => 3
    case InstallEssentialPackages => 4
    case ConfigureFstab => 5
    case ConfigureTimeZone => 6
    case ConfigureLocalization => 7
    case EnableMultilib => 8
    case ConfigureNetwork => 9
    case SetRootPassword => 10
    case AddNormalUser => 11
    case AllowWheelGroupSudo => 12
    case IncreaseSudoTimestampTimeout => 13
    case SetupHibernation => 14
    case ConfigureSystemdBootloader => 15
  }

  /** Every step is called, and called once: the step at each position is found there and
      nowhere earlier. */
  lemma EachStepRunsOnce()
    ensures |BaseSystemSteps| == 16
    ensures forall s: Step :: s in BaseSystemSteps
    ensures forall i :: 0 <= i < |BaseSystemSteps| ==> Position(BaseSystemSteps[i]) == i
    ensures forall i, j :: 0 <= i < j < |BaseSystemSteps| ==> BaseSystemSteps[i] != BaseSystemSteps[j]
  {
    forall s: Step ensures s in BaseSystemSteps {
      assert BaseSystemSteps[Position(s)] == s;
    }
    forall i | 0 <= i < |BaseSystemSteps| ensures Position(BaseSystemSteps[i]) == i {
    }
  }

  /** The disk is partitioned and mounted before anything is installed onto it, and before
      the fstab and the bootloader entry that name its partitions are written. */
  lemma PrepareDiskComesFirst()
    ensures Position(SetupMirrors) < Position(InstallEssentialPackages)
    ensures Position(PrepareDisk) < Position(InstallEssentialPackages)
    ensures Position(PrepareDisk) < Position(ConfigureFstab)
    ensures Position(PrepareDisk) < Position(ConfigureSystemdBootloader)
    ensures Position(InstallEssentialPackages) < Position(ConfigureSystemdBootloader)
  {
  }

  /** What a step does to the in-memory settings: of the sixteen, only `prepare_disk` writes
      them, merging in the partition names the partitioning helper returned. */
  function ApplyStep<V>(step: Step, settings: map<string, V>, partNames: map<string, V>)
    : map<string, V>
  {
    if step == PrepareDisk then Merge(settings, partNames) else settings
  }

  /** The settings once `steps` have run in order, each to completion: untouched when the disk
      was not prepared, and merged with the partition names when it was. Every `prepare_disk`
      here merges the same `partNames`; the base-system order runs it once. */
  function SettingsAfter<V>(steps: seq<Step>, settings: map<string, V>, partNames: map<string, V>)
    : (r: map<string, V>)
    ensures PrepareDisk !in steps ==> r == settings
    ensures PrepareDisk in steps ==> r == Merge(settings, partNames)
    decreases |steps|
  {
    if |steps| == 0 then settings
    else
      var r := SettingsAfter(steps[1..], ApplyStep(steps[0], settings, partNames), partNames);
      assert steps == [steps[0]] + steps[1..];
      MergeIdempotent(settings, partNames);
      r
  }

  /** When `configure_systemd_bootloader` runs, `prepare_disk` has already run, so the UUIDs
      it looks up are those of the partitions the disk was just given. */
  lemma BootloaderSeesPreparedPartitions<V>(settings: map<string, V>, partNames: map<string, V>)
    requires RootPartKey in partNames && SwapPartKey in partNames
    ensures var before := BaseSystemSteps[..Position(ConfigureSystemdBootloader)];
      BootPartitions(SettingsAfter(before, settings, partNames))
      == Ok((partNames[RootPartKey], partNames[SwapPartKey]))
  {
    var before := BaseSystemSteps[..Position(ConfigureSystemdBootloader)];
    assert before[3] == PrepareDisk;
    BootPartitionsAfterMerge(settings, partNames);
  }
}
