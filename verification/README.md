# ostools archinstall core in Dafny

This project models the pure logic of `lib/archinstall.py`, the Arch Linux installer class of
ostools. Everything around that logic is external: `pacman`, `arch-chroot`, `gsettings`,
`blkid`, and reads and writes of configuration files. Those effects become plain inputs and
outputs. What is left is five text and collection transformations and one fixed step order:

- `enable_multilib` (module `Multilib`) reads `pacman.conf` as lines and finds the first
  line equal to `#[multilib]\n`. It deletes every `#` from that line and the line after it,
  then writes the lines back. It fails with nothing written when the header is missing
  (`list.index` raises `ValueError`) or is the last line (`IndexError`).
- `add_gnome_shortcut` (module `GnomeShortcut`) computes the number of the new custom
  keybinding from the list text `gsettings get` prints. It builds the three `gsettings set`
  calls for the keybinding's name, binding and command, and the new list text.
- `prepare_disk` (module `Settings`) merges the partition names returned by the partitioning
  helper into the settings dictionary with `dict.update`. `configure_systemd_bootloader` later
  reads `root_part_name` and then `swap_part_name` from that dictionary.
- `set_root_password` and `add_normal_user` (module `Accounts`) build the text piped to
  `passwd` (the password and a newline, twice) and the comma-joined `useradd -G` argument.
- `install_base_system` (module `BaseSystem`) calls sixteen steps in a fixed order. Of those,
  only `prepare_disk` writes the settings.

The Python library behaviour these depend on lives in modules `Seqs` and `Text`, with
`Wrappers` supplying `Option` and `Result`. It covers `list.index`, `str.replace(c, '')`,
`str.strip()` over Python's whitespace set, `str * n`, `str.join`, `readlines` and
`writelines`, `str(int)`, and `re.findall(r'\d+')` as the maximal runs of ASCII digits.

Every operation of the core carries a contract, and each is paired with a partner: a round
trip, an independent reference definition, or a property the rest of the installer relies on.
Small text builders (`Flatten`, `ParseNat`, `StripStart`, `ItemPath`, `LastEntry`,
`SingletonList`, `AppendedEntry`, `Quoted`), the step function `ApplyStep` and the wrapper
`EnableMultilib` have no contract of their own; the members that use them state their
meaning.

## Model

| member | source | states |
|---|---|---|
| Seqs.FirstIndex | lib/archinstall.py:140 | `list.index` finds the first position holding the item. It reports absence exactly when the item is not in the list, and no earlier position holds the item. |
| Text.DeleteAll | lib/archinstall.py:143-145 | `replace('#', '')` leaves no `#` and keeps the count of every other character. The length shrinks by the number of `#`, and text without `#` comes back unchanged. |
| Text.DeleteAllAppend | lib/archinstall.py:143-145 | Deleting a character distributes over concatenation, so the surviving characters keep their order. |
| Text.Strip | lib/archinstall.py:399 | `strip()` returns a contiguous window of the text, and everything cut off on either side is whitespace. The window is empty or starts and ends with non-whitespace. |
| Text.NonSpaceSurvivesStrip | lib/archinstall.py:399 | Every non-whitespace character of the text lies inside the stripped window, at its own position shifted by the cut-off start. |
| Text.DropLast | lib/archinstall.py:430 | `s[:-n]` is the prefix of `s` that is `n` characters shorter, or empty when `s` has fewer than `n` characters. |
| Text.Repeat | lib/archinstall.py:175-182 | `s * n` is `n` times as long as `s`. |
| Text.RepeatAdd | lib/archinstall.py:175-182 | Repetition adds up: `s * (a + b)` is `s * a` followed by `s * b`, and `s * 1` is `s`, so `s * 2` is `s` twice. |
| Text.ReadLines | lib/archinstall.py:136-137 | `readlines` yields well-formed lines: each is nonempty, only the last may lack a newline, and none has an inner newline. Concatenating them gives back the text. |
| Text.ReadLinesFlatten | lib/archinstall.py:148-149 | `writelines` followed by `readlines` gives back the same well-formed lines. |
| Text.Join | lib/archinstall.py:187 | `sep.join` of no items is empty; otherwise its length is the items' total length plus one separator fewer than there are items. |
| Text.JoinWithoutSeparators | lib/archinstall.py:187 | Deleting the separator character from a join leaves exactly the items' own characters, in order, with that character deleted. |
| Text.SplitJoin | lib/archinstall.py:187 | Splitting `','.join(groups)` at commas recovers the groups when there is at least one group and no group contains a comma. |
| Text.JoinSplit | lib/archinstall.py:187 | Joining the comma-separated pieces of any text with commas gives back that text. |
| Text.NatToString | lib/archinstall.py:409-430 | `str(index)` in the f-strings is a nonempty string of decimal digits without a leading zero, unless it is the single digit `0`. |
| Text.DigitValue | lib/archinstall.py:403-409 | A digit character's value is below ten, and writing that value as a digit gives the character back. |
| Text.ParseNatToString | lib/archinstall.py:405-409 | The decimal digits that `str(index)` writes into the keybinding path parse back to the index. |
| Text.DigitRuns | lib/archinstall.py:403 | Every match of `\d+` is a nonempty digit string. There are no matches exactly when the text has no digit. |
| Text.DigitRunsAppend | lib/archinstall.py:403 | Across a non-digit boundary, the matches of a concatenation are the matches of the left text followed by those of the right. |
| Text.MaximalRunIsFound | lib/archinstall.py:403 | A digit run bounded by non-digits (or the text's ends) is one of the matches. |
| Multilib.UncommentPair | lib/archinstall.py:143-145 | Lines `h` and `h + 1` lose their `#` characters. The number of lines is unchanged, and every other line is identical. |
| Multilib.UncommentAfter | lib/archinstall.py:140-145 | With the header `#[multilib]\n` as `header` (as `EnableMultilib` passes it), it fails with `HeaderNotFound` exactly when no line is the header. It fails with `NoLineAfterHeader` exactly when the first header line is the last line. Otherwise it uncomments the first header line and its successor, and changes nothing else. |
| Multilib.HeaderIsUncommented | lib/archinstall.py:140-143 | When the first commented header has a successor, the edit succeeds on that header, and the header line then reads `[multilib]\n`. |
| Multilib.EnableMultilibText | lib/archinstall.py:136-149 | The file is rewritten only when the in-memory edit succeeds; otherwise it fails with the same error. A rewritten file is the original text with two changes at the first commented header: that line becomes `[multilib]\n`, and the next line loses its `#`. All text before and after those two lines is written back unchanged. |
| Multilib.MultilibTextEdit | lib/archinstall.py:136-149 | Conversely, whenever the first commented header line has a successor, the file is rewritten, and exactly as described for `EnableMultilibText`. |
| GnomeShortcut.NextIndex | lib/archinstall.py:399-405 | The index is 0 when the stripped output is `@as []`. In every case it equals the number of `\d+` matches, so it is 0 exactly when the output has no digit. |
| GnomeShortcut.EmptyListHasNoDigits | lib/archinstall.py:399-400 | Output that strips to `@as []` contains no digit, so the two branches of the index computation agree on it. |
| GnomeShortcut.NewPathList | lib/archinstall.py:426-430 | Index 0 gives the one-entry list naming keybinding 0. Otherwise the result is the old text without its last two characters, followed by `, '<path><index>/']`. In both cases the list ends with the entry of the chosen index. |
| GnomeShortcut.AppendBranchRuns | lib/archinstall.py:428-430 | When the dropped two characters are not digits, the new list's numbers are the old list's numbers followed by the new index. |
| GnomeShortcut.UpdatedPathList | lib/archinstall.py:399-430 | The stored list ends with the entry of the computed index. When the printed list ends with two non-digits, as `gsettings` prints it, the stored list keeps the old numbers and appends the new one, so the next keybinding added gets the number after it. |
| GnomeShortcut.SetCommand | lib/archinstall.py:407-435 | A `gsettings set` call is the five arguments `gsettings`, `set`, the schema, the key and the value, in that order. |
| GnomeShortcut.ShortcutCommands | lib/archinstall.py:407-435 | There are four `gsettings set` calls. The first three set `name`, `binding` and `command` to the quoted arguments, at the keybinding path of the chosen index. The last sets the list schema's `custom-keybindings` to exactly the rebuilt list text, which ends with that same path. |
| GnomeShortcut.ShortcutCommandsStoreUpdatedList | lib/archinstall.py:399-435 | With the index computed from the same output, the stored list is the updated list; when the output ends with two non-digits, it keeps the old numbers and appends the new one. |
| GnomeShortcut.NextIndexReusesExistingPath | lib/archinstall.py:399-405 | For output listing only `custom1`, the computed index is 1, and the path `custom1/` already occurs in the output. |
| GnomeShortcut.OnePastLargest | lib/archinstall.py:403-405 | The result is larger than every listed number and is one past one of them, or 0 when there is none. |
| GnomeShortcut.EnclosedDigitsAreRun | lib/archinstall.py:403 | Digits that occur in the output between a non-digit and a non-digit are one of the `\d+` matches. |
| GnomeShortcut.OccurringPathIsRun | lib/archinstall.py:403-409 | Whenever the path of keybinding `n` occurs in the output, the digits of `n` are among the `\d+` matches. |
| GnomeShortcut.FreshIndex | lib/archinstall.py:399-405 | The corrected index exceeds every number in the output and is 0 when there is none. The path it names occurs nowhere in the output. |
| GnomeShortcut.FreshIndexSkipsExistingPath | lib/archinstall.py:399-405 | For the output listing only `custom1`, the corrected index is 2. |
| GnomeShortcut.CorrectedPathList | lib/archinstall.py:399-430 | With the corrected index, the stored list ends with the new entry. Under the same condition on the printed list, it keeps the old numbers and appends the new one, so the next keybinding added gets the number after it. |
| Settings.Merge | lib/archinstall.py:79 | After `update`, the keys are the union of both maps. Every key of the partition map has that map's value, and every other key keeps its old value. |
| Settings.Get | lib/archinstall.py:262-263 | Subscripting the settings succeeds exactly when the key is present, with the stored value, and otherwise raises `KeyError` for that key. |
| Settings.BootPartitions | lib/archinstall.py:262-263 | It succeeds exactly when both partition keys are present and then returns their values. A missing root key is reported first, then a missing swap key. |
| Settings.BootPartitionsAfterMerge | lib/archinstall.py:79 | After the merge, the bootloader reads the partition names from the partition map, whatever the settings held before. |
| BaseSystem.Position | lib/archinstall.py:509-524 | Each step's position in `install_base_system` holds that step. |
| BaseSystem.EachStepRunsOnce | lib/archinstall.py:509-524 | There are sixteen steps. Every step appears, and no step appears twice. |
| BaseSystem.SettingsAfter | lib/archinstall.py:79 | Running steps to completion leaves the settings untouched unless `prepare_disk` is among them. If it is, the settings are the settings merged with the partition names. |
| BaseSystem.PrepareDiskComesFirst | lib/archinstall.py:509-524 | `setup_mirrors` and `prepare_disk` run before the essential packages are installed, and `prepare_disk` runs before `configure_fstab` and `configure_systemd_bootloader`. |
| BaseSystem.BootloaderSeesPreparedPartitions | lib/archinstall.py:509-524 | By the time `configure_systemd_bootloader` runs, the settings hold exactly the partition names that `prepare_disk` returned. |
| Accounts.PasswordInput | lib/archinstall.py:175 | The stdin for `passwd` has twice the password's length plus two. For a password without a newline, it reads back as two lines, each the password and a newline. |
| Accounts.GroupsArgument | lib/archinstall.py:187 | No groups give the empty argument. Otherwise it is the groups' total length plus one comma fewer than there are groups long, and with its commas deleted it is the groups' text with commas deleted, whatever the groups hold. When no group contains a comma, splitting it at commas recovers the groups. |

## Left out

- Every `subprocess.run` call (pacman, pacstrap, arch-chroot, systemctl, bootctl, blkid, gsettings, passwd, useradd). These are external processes; the model keeps only the arguments and stdin text it builds. Within the modelled operations no return code is checked. `is_package_installed` (lib/archinstall.py:437-443) only relays a return code, and `is_flatpak_package_installed` (lib/archinstall.py:445-453) installs flatpak and then relays one; neither is modelled.
- File I/O: the contents of pacman.conf and the gsettings output are parameters, and the JSON dump of the settings (lib/archinstall.py:81-83) is not modelled. Newline translation and UTF-8 encoding and decoding are also not modelled: text is a sequence of characters.
- `lib/diskutils` and `lib/fileutils` are not part of this model. The partition-name map from `prepare_unencrypted_layout` is an arbitrary input, and `fileutils.backup` has no modelled effect.
- The steps of `install_base_system` other than those listed above are represented only by their position. `install_archlinux.py` is not modelled, and neither is `execute_method`, which `lib/archinstall.py` does not define.
- Text.DigitRuns: `\d` is modelled as the ASCII digits `0`-`9` only. Python's `\d` on `str` also matches other Unicode decimal digits, which `gsettings` output does not contain.
- GnomeShortcut.NextIndex: the index is 0 not only when the stripped output is `@as []` but whenever the output holds no digit at all. The contract states this exact condition, which is what the code computes.
- GnomeShortcut.ShortcutCommands: takes the index as a parameter; the source computes it with `NextIndex` of the same output.
- GnomeShortcut.UpdatedPathList: states the numbering only when the two characters the append branch drops are not digits. This holds for the `]` and newline that `gsettings get` ends its output with. Output not ending that way is outside the statement.
- BaseSystem.SettingsAfter: a step that raises ends `install_base_system`; BaseSystem assumes each step before the one considered completed. For example, `enable_multilib` raises `ValueError` or `IndexError` where the model returns `Err` (lib/archinstall.py:140, 145), and `setup_mirrors` raises `KeyError` without a `mirrors` setting (lib/archinstall.py:67); the later steps, the bootloader included, then never run.
- BaseSystem.SettingsAfter: every `prepare_disk` in a step sequence merges the same partition-name map. In the source each call asks `diskutils.prepare_unencrypted_layout` again (lib/archinstall.py:72-77), which could return other names; the base-system order calls it once, so the bootloader statement is unaffected.
- Accounts.GroupsArgument: when a group contains a comma, the argument is pinned down by its length and its comma-free content, but the positions of the separating commas among the groups' own commas are not stated.
- Accounts.PasswordInput: a password that itself contains a newline is outside the read-back statement. `passwd` would take the text up to the first newline as the password.
- `add_normal_user`'s `useradd` argument vector and `self.home_dir` (lib/archinstall.py:15) are plain string assembly from settings values and are not modelled beyond the `-G` argument.
- `get_uuid` strips the `blkid` output (lib/archinstall.py:243). Only the `strip()` semantics are modelled, in `Text.Strip`.

## Findings

| source | as written | input that shows it | evidently intended | confidence | as-written member | corrected member |
|---|---|---|---|---|---|---|
| lib/archinstall.py:399-405 | The new keybinding's number is the count of numbers in the listed paths. | `gsettings` output `['/org/gnome/settings-daemon/plugins/media-keys/custom-keybindings/custom1/']` and a newline, left after keybinding 0 was removed: the count is 1, and `custom1/` already exists, so its name, binding and command are overwritten. | A number no listed path uses, such as one past the largest listed number. | medium, not executed | GnomeShortcut.NextIndexReusesExistingPath | GnomeShortcut.FreshIndex |
