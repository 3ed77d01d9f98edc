/** Mount options of a tmpfs: merging a list of them, and reading the merged list. */
module TmpfsOptions {
  import opened Wrappers
  import opened Text

  // ----- the table

  /** Flags that are one bit of the mount word. */
  datatype Switch =
    | RDONLY | NOSUID | NODEV | NOEXEC | SYNCHRONOUS | DIRSYNC | REMOUNT | MANDLOCK
    | NOATIME | NODIRATIME | RELATIME | STRICTATIME

  datatype Mode = BIND | UNBINDABLE | PRIVATE | SHARED | SLAVE

  /** A bit of the mount word; a word is the set of its bits. */
  datatype Bit = SwitchBit(s: Switch) | ModeBit(m: Mode) | REC

  /** An entry of the flags table. Propagation entries are one mode, alone or with MS_REC. */
  datatype Flag =
    | Defaults
    | Switches(s: Switch, clear: bool)
    | Propagates(m: Mode, recursive: bool)
  {
    function Bits(): set<Bit> {
      match this
      case Defaults => {}
      case Switches(s, _) => {SwitchBit(s)}
      case Propagates(m, recursive) => if recursive then {ModeBit(m), REC} else {ModeBit(m)}
    }
  }

  function FlagOf(option: string): Option<Flag> {
    match option
    case "defaults" => Some(Defaults)
    case "ro" => Some(Switches(RDONLY, false))
    case "rw" => Some(Switches(RDONLY, true))
    case "suid" => Some(Switches(NOSUID, true))
    case "nosuid" => Some(Switches(NOSUID, false))
    case "dev" => Some(Switches(NODEV, true))
    case "nodev" => Some(Switches(NODEV, false))
    case "exec" => Some(Switches(NOEXEC, true))
    case "noexec" => Some(Switches(NOEXEC, false))
    case "sync" => Some(Switches(SYNCHRONOUS, false))
    case "async" => Some(Switches(SYNCHRONOUS, true))
    case "dirsync" => Some(Switches(DIRSYNC, false))
    case "remount" => Some(Switches(REMOUNT, false))
    case "mand" => Some(Switches(MANDLOCK, false))
    case "nomand" => Some(Switches(MANDLOCK, true))
    case "atime" => Some(Switches(NOATIME, true))
    case "noatime" => Some(Switches(NOATIME, false))
    case "diratime" => Some(Switches(NODIRATIME, true))
    case "nodiratime" => Some(Switches(NODIRATIME, false))
    case "bind" => Some(Propagates(BIND, false))
    case "rbind" => Some(Propagates(BIND, true))
    case "unbindable" => Some(Propagates(UNBINDABLE, false))
    case "runbindable" => Some(Propagates(UNBINDABLE, true))
    case "private" => Some(Propagates(PRIVATE, false))
    case "rprivate" => Some(Propagates(PRIVATE, true))
    case "shared" => Some(Propagates(SHARED, false))
    case "rshared" => Some(Propagates(SHARED, true))
    case "slave" => Some(Propagates(SLAVE, false))
    case "rslave" => Some(Propagates(SLAVE, true))
    case "relatime" => Some(Switches(RELATIME, false))
    case "norelatime" => Some(Switches(RELATIME, true))
    case "strictatime" => Some(Switches(STRICTATIME, false))
    case "nostrictatime" => Some(Switches(STRICTATIME, true))
    case _ => None
  }

  predicate ValidFlag(name: string) {
    name in {"", "size", "mode", "uid", "gid", "nr_inodes", "nr_blocks", "mpol"}
  }

  /** strings.SplitN(option, "=", 2)[0]. */
  function BeforeEquals(option: string): string {
    if option == "" || option[0] == '=' then "" else [option[0]] + BeforeEquals(option[1..])
  }

  // ----- merging

  /** What an option decides: two with the same key collide. */
  datatype Key = Nothing | Toggle(s: Switch) | Propagation | Data(name: string)

  /** None for an option that is refused. */
  function KeyOf(option: string): Option<Key> {
    match FlagOf(option)
    case Some(Defaults) => Some(Nothing)
    case Some(Switches(s, _)) => Some(Toggle(s))
    case Some(Propagates(_, _)) => Some(Propagation)
    case None =>
      if '=' in option && ValidFlag(BeforeEquals(option)) then Some(Data(BeforeEquals(option))) else None
  }

  ghost predicate Accepted(options: seq<string>) {
    forall o :: o in options ==> KeyOf(o).Some?
  }

  ghost predicate HasKey(options: seq<string>, k: Option<Key>) {
    exists o :: o in options && KeyOf(o) == k
  }

  /** Decided again further on, or deciding nothing. */
  ghost predicate Superseded(option: string, later: seq<string>) {
    KeyOf(option) == Some(Nothing) || HasKey(later, KeyOf(option))
  }

  /** The last option for each key, in the order of the list. */
  ghost function LastPerKey(options: seq<string>): seq<string> {
    if options == [] then []
    else (if Superseded(options[0], options[1..]) then [] else [options[0]]) + LastPerKey(options[1..])
  }

  /** Among the flags' keys or the data's names. */
  predicate Collides(k: Key, flagCollisions: set<Key>, dataCollisions: set<string>) {
    if k.Data? then k.name in dataCollisions else k in flagCollisions
  }

  lemma KeysOfMore(option: string, rest: seq<string>)
    ensures forall k :: HasKey([option] + rest, k) <==> KeyOf(option) == k || HasKey(rest, k)
  {
    hide KeyOf;
    var all := [option] + rest;
    assert forall o :: o in all <==> o == option || o in rest;
    forall k ensures HasKey(all, k) <==> KeyOf(option) == k || HasKey(rest, k) {
      if KeyOf(option) == k {
        assert option in all;
      }
    }
  }

  method MergeTmpfsOptions(options: seq<string>) returns (r: Result<seq<string>, string>)
    ensures r.Ok? <==> Accepted(options)
    ensures r.Ok? ==> r.value == LastPerKey(options)
  {
    hide FlagOf, ValidFlag, BeforeEquals;
    var flagCollisions: set<Key> := {};
    var dataCollisions: set<string> := {};
    var newOptions: seq<string> := [];
    var i := |options|;
    while i > 0
      invariant 0 <= i <= |options|
      invariant Accepted(options[i..]) && newOptions == LastPerKey(options[i..])
      invariant forall k :: Collides(k, flagCollisions, dataCollisions)
                            <==> k != Nothing && HasKey(options[i..], Some(k))
    {
      i := i - 1;
      var option := options[i];
      assert options[i..] == [option] + options[i + 1..] && options[i..][1..] == options[i + 1..];
      KeysOfMore(option, options[i + 1..]);
      var f := FlagOf(option);
      if f == Some(Defaults) {
        continue;
      }
      if f.Some? {
        var key := if f.value.Propagates? then Propagation else Toggle(f.value.s);
        if key !in flagCollisions {
          newOptions := [option] + newOptions;
          flagCollisions := flagCollisions + {key};
        }
        continue;
      }
      var name := BeforeEquals(option);
      if '=' !in option || !ValidFlag(name) {
        assert option in options;
        return Err("Invalid tmpfs option");
      }
      if name !in dataCollisions {
        newOptions := [option] + newOptions;
        dataCollisions := dataCollisions + {name};
      }
    }
    assert options[0..] == options;
    r := Ok(newOptions);
  }

  // ----- what merging keeps

  lemma {:induction false} MergedFrom(options: seq<string>)
    ensures forall o :: o in LastPerKey(options) ==> o in options && KeyOf(o) != Some(Nothing)
  {
    hide KeyOf, HasKey;
    if options != [] {
      MergedFrom(options[1..]);
    }
  }

  lemma {:induction false} MergedHasKeys(options: seq<string>, k: Option<Key>)
    requires k != Some(Nothing)
    ensures HasKey(LastPerKey(options), k) <==> HasKey(options, k)
  {
    hide KeyOf, HasKey;
    if options != [] {
      var rest := options[1..];
      MergedHasKeys(rest, k);
      KeysOfMore(options[0], rest);
      KeysOfMore(options[0], LastPerKey(rest));
      assert options == [options[0]] + rest;
      assert [] + LastPerKey(rest) == LastPerKey(rest);
    }
  }

  /** No two options of the merged list decide the same thing. */
  ghost predicate KeysDiffer(options: seq<string>) {
    && (forall o :: o in options ==> KeyOf(o) != Some(Nothing))
    && (forall i, j :: 0 <= i < j < |options| ==> KeyOf(options[i]) != KeyOf(options[j]))
  }

  lemma {:induction false} MergedKeysDiffer(options: seq<string>)
    ensures KeysDiffer(LastPerKey(options))
  {
    hide KeyOf, HasKey, KeysDiffer;
    if options == [] {
      NoKeys();
    } else {
      var rest := LastPerKey(options[1..]);
      MergedKeysDiffer(options[1..]);
      if Superseded(options[0], options[1..]) {
        assert [] + rest == rest;
      } else {
        MergedHasKeys(options[1..], KeyOf(options[0]));
        OneMoreKey(options[0], rest);
      }
    }
  }

  lemma NoKeys()
    ensures KeysDiffer([])
  {
  }

  lemma OneMoreKey(option: string, rest: seq<string>)
    requires KeysDiffer(rest) && KeyOf(option) != Some(Nothing) && !HasKey(rest, KeyOf(option))
    ensures KeysDiffer([option] + rest)
  {
    hide KeyOf;
    var all := [option] + rest;
    assert forall i :: 0 < i < |all| ==> all[i] == rest[i - 1] && all[i] in rest;
  }

  lemma {:induction false} NothingToMerge(options: seq<string>)
    requires KeysDiffer(options)
    ensures LastPerKey(options) == options
  {
    hide KeyOf;
    if options != [] {
      NothingToMerge(options[1..]);
      assert options[0] in options && options == [options[0]] + options[1..];
    }
  }

  /** Merging a merged list changes nothing. */
  lemma MergeIsIdempotent(options: seq<string>)
    ensures LastPerKey(LastPerKey(options)) == LastPerKey(options)
    ensures Accepted(options) ==> Accepted(LastPerKey(options))
  {
    hide LastPerKey, KeyOf;
    MergedKeysDiffer(options);
    NothingToMerge(LastPerKey(options));
    MergedFrom(options);
  }

  // ----- the mount word

  function Apply(word: set<Bit>, option: string): set<Bit> {
    match FlagOf(option)
    case Some(Switches(s, true)) => word - {SwitchBit(s)}
    case Some(f) => word + f.Bits()
    case None => word
  }

  function Word(options: seq<string>): set<Bit> {
    if options == [] then {} else Apply(Word(options[..|options| - 1]), options[|options| - 1])
  }

  /** What the last option about this switch says. */
  ghost function Setting(options: seq<string>, s: Switch): Option<bool> {
    if options == [] then None
    else if Setting(options[1..], s).Some? then Setting(options[1..], s)
    else match FlagOf(options[0])
         case Some(Switches(t, clear)) => if t == s then Some(!clear) else None
         case _ => None
  }

  lemma {:induction false} SettingLast(options: seq<string>, last: string, s: Switch)
    ensures Setting(options + [last], s)
         == match FlagOf(last)
            case Some(Switches(t, clear)) => if t == s then Some(!clear) else Setting(options, s)
            case _ => Setting(options, s)
  {
    hide FlagOf;
    if options == [] {
      assert [] + [last] == [last] && [last][1..] == [];
    } else {
      assert (options + [last])[1..] == options[1..] + [last];
      SettingLast(options[1..], last, s);
    }
  }

  lemma {:induction false} WordSwitch(options: seq<string>, s: Switch)
    ensures SwitchBit(s) in Word(options) <==> Setting(options, s) == Some(true)
  {
    hide FlagOf;
    if options != [] {
      var n := |options| - 1;
      WordSwitch(options[..n], s);
      SettingLast(options[..n], options[n], s);
      assert options == options[..n] + [options[n]];
    }
  }

  lemma TextAdds(options: seq<string>, o: string, f: Flag)
    requires FlagOf(o) == Some(f)
    ensures Word(options + [o])
         == if f.Switches? && f.clear then Word(options) - {SwitchBit(f.s)} else Word(options) + f.Bits()
  {
    hide FlagOf;
    assert (options + [o])[..|options|] == options;
  }

  /** What the texts of the flags do to the mount word: writing and privileges, */
  lemma AccessTexts(options: seq<string>)
    ensures Word(options + ["ro"]) == Word(options) + {SwitchBit(RDONLY)}
    ensures Word(options + ["rw"]) == Word(options) - {SwitchBit(RDONLY)}
    ensures Word(options + ["nosuid"]) == Word(options) + {SwitchBit(NOSUID)}
    ensures Word(options + ["suid"]) == Word(options) - {SwitchBit(NOSUID)}
  {
    hide Word;
    TextAdds(options, "ro", Switches(RDONLY, false));
    TextAdds(options, "rw", Switches(RDONLY, true));
    TextAdds(options, "nosuid", Switches(NOSUID, false));
    TextAdds(options, "suid", Switches(NOSUID, true));
  }

  /** ... devices and execution, */
  lemma ExecutionTexts(options: seq<string>)
    ensures Word(options + ["nodev"]) == Word(options) + {SwitchBit(NODEV)}
    ensures Word(options + ["dev"]) == Word(options) - {SwitchBit(NODEV)}
    ensures Word(options + ["noexec"]) == Word(options) + {SwitchBit(NOEXEC)}
    ensures Word(options + ["exec"]) == Word(options) - {SwitchBit(NOEXEC)}
  {
    hide Word;
    TextAdds(options, "nodev", Switches(NODEV, false));
    TextAdds(options, "dev", Switches(NODEV, true));
    TextAdds(options, "noexec", Switches(NOEXEC, false));
    TextAdds(options, "exec", Switches(NOEXEC, true));
  }

  /** ... synchronous writing and remounting, */
  lemma SyncTexts(options: seq<string>)
    ensures Word(options + ["sync"]) == Word(options) + {SwitchBit(SYNCHRONOUS)}
    ensures Word(options + ["async"]) == Word(options) - {SwitchBit(SYNCHRONOUS)}
    ensures Word(options + ["dirsync"]) == Word(options) + {SwitchBit(DIRSYNC)}
    ensures Word(options + ["remount"]) == Word(options) + {SwitchBit(REMOUNT)}
  {
    hide Word;
    TextAdds(options, "sync", Switches(SYNCHRONOUS, false));
    TextAdds(options, "async", Switches(SYNCHRONOUS, true));
    TextAdds(options, "dirsync", Switches(DIRSYNC, false));
    TextAdds(options, "remount", Switches(REMOUNT, false));
  }

  /** ... mandatory locks, */
  lemma LockTexts(options: seq<string>)
    ensures Word(options + ["mand"]) == Word(options) + {SwitchBit(MANDLOCK)}
    ensures Word(options + ["nomand"]) == Word(options) - {SwitchBit(MANDLOCK)}
  {
    hide Word;
    TextAdds(options, "mand", Switches(MANDLOCK, false));
    TextAdds(options, "nomand", Switches(MANDLOCK, true));
  }

  /** ... access times, */
  lemma AccessTimeTexts(options: seq<string>)
    ensures Word(options + ["noatime"]) == Word(options) + {SwitchBit(NOATIME)}
    ensures Word(options + ["atime"]) == Word(options) - {SwitchBit(NOATIME)}
  {
    hide Word;
    TextAdds(options, "noatime", Switches(NOATIME, false));
    TextAdds(options, "atime", Switches(NOATIME, true));
  }

  /** ... access times of directories, */
  lemma DirTimeTexts(options: seq<string>)
    ensures Word(options + ["nodiratime"]) == Word(options) + {SwitchBit(NODIRATIME)}
    ensures Word(options + ["diratime"]) == Word(options) - {SwitchBit(NODIRATIME)}
  {
    hide Word;
    TextAdds(options, "nodiratime", Switches(NODIRATIME, false));
    TextAdds(options, "diratime", Switches(NODIRATIME, true));
  }

  /** ... relative ones, */
  lemma RelativeTexts(options: seq<string>)
    ensures Word(options + ["relatime"]) == Word(options) + {SwitchBit(RELATIME)}
    ensures Word(options + ["norelatime"]) == Word(options) - {SwitchBit(RELATIME)}
  {
    hide Word;
    TextAdds(options, "relatime", Switches(RELATIME, false));
    TextAdds(options, "norelatime", Switches(RELATIME, true));
  }

  /** ... strict access times, and nothing at all, */
  lemma StrictTexts(options: seq<string>)
    ensures Word(options + ["strictatime"]) == Word(options) + {SwitchBit(STRICTATIME)}
    ensures Word(options + ["nostrictatime"]) == Word(options) - {SwitchBit(STRICTATIME)}
    ensures Word(options + ["defaults"]) == Word(options)
  {
    hide Word;
    TextAdds(options, "strictatime", Switches(STRICTATIME, false));
    TextAdds(options, "nostrictatime", Switches(STRICTATIME, true));
    TextAdds(options, "defaults", Defaults);
  }

  /** ... binding, */
  lemma BindTexts(options: seq<string>)
    ensures Word(options + ["bind"]) == Word(options) + {ModeBit(BIND)}
    ensures Word(options + ["rbind"]) == Word(options) + {ModeBit(BIND), REC}
    ensures Word(options + ["unbindable"]) == Word(options) + {ModeBit(UNBINDABLE)}
    ensures Word(options + ["runbindable"]) == Word(options) + {ModeBit(UNBINDABLE), REC}
  {
    hide Word;
    TextAdds(options, "bind", Propagates(BIND, false));
    TextAdds(options, "rbind", Propagates(BIND, true));
    TextAdds(options, "unbindable", Propagates(UNBINDABLE, false));
    TextAdds(options, "runbindable", Propagates(UNBINDABLE, true));
  }

  /** ... private and shared propagation, */
  lemma SharingTexts(options: seq<string>)
    ensures Word(options + ["private"]) == Word(options) + {ModeBit(PRIVATE)}
    ensures Word(options + ["rprivate"]) == Word(options) + {ModeBit(PRIVATE), REC}
    ensures Word(options + ["shared"]) == Word(options) + {ModeBit(SHARED)}
    ensures Word(options + ["rshared"]) == Word(options) + {ModeBit(SHARED), REC}
  {
    hide Word;
    TextAdds(options, "private", Propagates(PRIVATE, false));
    TextAdds(options, "rprivate", Propagates(PRIVATE, true));
    TextAdds(options, "shared", Propagates(SHARED, false));
    TextAdds(options, "rshared", Propagates(SHARED, true));
  }

  /** ... and propagation one way. */
  lemma SlaveTexts(options: seq<string>)
    ensures Word(options + ["slave"]) == Word(options) + {ModeBit(SLAVE)}
    ensures Word(options + ["rslave"]) == Word(options) + {ModeBit(SLAVE), REC}
  {
    hide Word;
    TextAdds(options, "slave", Propagates(SLAVE, false));
    TextAdds(options, "rslave", Propagates(SLAVE, true));
  }

  lemma {:induction false} NameBeforeEquals(name: string, value: string)
    requires '=' !in name
    ensures BeforeEquals(name + "=" + value) == name && BeforeEquals(name) == name
  {
    if name == "" {
      assert "" + "=" + value == "=" + value;
    } else {
      assert (name + "=" + value)[1..] == name[1..] + "=" + value;
      NameBeforeEquals(name[1..], value);
    }
  }

  /** The data that has a name: with any value it decides that name, and no other text with '=' is taken. */
  lemma DataTexts(name: string, value: string)
    requires '=' !in name && FlagOf(name + "=" + value) == None
    ensures KeyOf(name + "=" + value)
         == if name in {"", "size", "mode", "uid", "gid", "nr_inodes", "nr_blocks", "mpol"} then Some(Data(name))
            else None
  {
    hide FlagOf;
    NameBeforeEquals(name, value);
    assert (name + "=" + value)[|name|] == '=';
  }

  ghost predicate SetsMode(options: seq<string>, b: Bit) {
    exists o :: o in options && FlagOf(o).Some? && FlagOf(o).value.Propagates? && b in FlagOf(o).value.Bits()
  }

  lemma {:induction false} WordMode(options: seq<string>, b: Bit)
    requires !b.SwitchBit?
    ensures b in Word(options) <==> SetsMode(options, b)
  {
    hide FlagOf;
    if options != [] {
      var n := |options| - 1;
      WordMode(options[..n], b);
      assert options == options[..n] + [options[n]];
    }
  }

  lemma {:induction false} MergeKeepsSetting(options: seq<string>, s: Switch)
    ensures Setting(LastPerKey(options), s) == Setting(options, s)
    ensures Setting(options, s).Some? <==> HasKey(options, Some(Toggle(s)))
  {
    hide FlagOf, BeforeEquals, ValidFlag, HasKey;
    if options == [] {
      NoKey(Some(Toggle(s)));
    } else {
      var rest := options[1..];
      MergeKeepsSetting(rest, s);
      KeysOfMore(options[0], rest);
      assert options == [options[0]] + rest;
      if !Superseded(options[0], rest) {
        assert ([options[0]] + LastPerKey(rest))[1..] == LastPerKey(rest);
      } else {
        assert [] + LastPerKey(rest) == LastPerKey(rest);
      }
    }
  }

  /** The last propagation option. */
  ghost function LastMode(options: seq<string>): Option<Flag> {
    if options == [] then None
    else if LastMode(options[1..]).Some? then LastMode(options[1..])
    else if FlagOf(options[0]).Some? && FlagOf(options[0]).value.Propagates? then FlagOf(options[0])
    else None
  }

  lemma NoKey(k: Option<Key>)
    ensures !HasKey([], k)
  {
  }

  lemma {:induction false} LastModeIff(options: seq<string>)
    ensures LastMode(options).Some? <==> HasKey(options, Some(Propagation))
    ensures LastMode(options).Some? ==>
              exists o :: o in options && FlagOf(o) == LastMode(options) && LastMode(options).value.Propagates?
  {
    hide FlagOf, BeforeEquals, ValidFlag, HasKey;
    if options == [] {
      NoKey(Some(Propagation));
    } else {
      LastModeIff(options[1..]);
      KeysOfMore(options[0], options[1..]);
      assert options == [options[0]] + options[1..];
    }
  }

  lemma ModesOfMore(option: string, rest: seq<string>, b: Bit)
    ensures SetsMode([option] + rest, b)
       <==> (FlagOf(option).Some? && FlagOf(option).value.Propagates? && b in FlagOf(option).value.Bits())
            || SetsMode(rest, b)
    ensures !HasKey(rest, Some(Propagation)) ==> !SetsMode(rest, b)
  {
    hide FlagOf, BeforeEquals, ValidFlag;
    var all := [option] + rest;
    assert option in all && forall o :: o in rest ==> o in all;
  }

  lemma {:induction false} MergeKeepsLastMode(options: seq<string>, b: Bit)
    ensures SetsMode(LastPerKey(options), b) <==> LastMode(options).Some? && b in LastMode(options).value.Bits()
  {
    hide FlagOf, BeforeEquals, ValidFlag, HasKey, SetsMode;
    if options == [] {
      NoModes(b);
    } else {
      var rest := options[1..];
      MergeKeepsLastMode(rest, b);
      LastModeIff(rest);
      MergedHasKeys(rest, Some(Propagation));
      ModesOfMore(options[0], LastPerKey(rest), b);
      assert [] + LastPerKey(rest) == LastPerKey(rest);
    }
  }

  lemma NoModes(b: Bit)
    ensures !SetsMode([], b)
  {
  }

  /** Every propagation option asks for no more than the last one. */
  ghost predicate LastModeHasAll(options: seq<string>) {
    forall o :: o in options && FlagOf(o).Some? && FlagOf(o).value.Propagates? ==>
      LastMode(options).Some? && FlagOf(o).value.Bits() <= LastMode(options).value.Bits()
  }

  /** Merging keeps the mount word exactly when no propagation option that it drops has a bit that
      the last one has not: the switches are always kept. */
  lemma MergeKeepsWordIff(options: seq<string>)
    ensures Word(LastPerKey(options)) == Word(options) <==> LastModeHasAll(options)
  {
    hide FlagOf, Word, Setting, LastMode, LastPerKey, SetsMode, LastModeHasAll;
    forall s: Switch ensures SwitchBit(s) in Word(LastPerKey(options)) <==> SwitchBit(s) in Word(options) {
      WordSwitch(options, s);
      WordSwitch(LastPerKey(options), s);
      MergeKeepsSetting(options, s);
    }
    forall b: Bit | !b.SwitchBit?
      ensures b in Word(options) <==> SetsMode(options, b)
      ensures b in Word(LastPerKey(options)) <==> LastMode(options).Some? && b in LastMode(options).value.Bits()
    {
      WordMode(options, b);
      WordMode(LastPerKey(options), b);
      MergeKeepsLastMode(options, b);
    }
    HasAllIff(options);
    if LastModeHasAll(options) {
      forall b: Bit ensures b in Word(LastPerKey(options)) <==> b in Word(options) {
        if b.SwitchBit? {
          assert b == SwitchBit(b.s);
        }
      }
      assert Word(LastPerKey(options)) == Word(options);
    } else {
      var b: Bit :| !b.SwitchBit?
               && !(SetsMode(options, b) <==> LastMode(options).Some? && b in LastMode(options).value.Bits());
      assert !(b in Word(LastPerKey(options)) <==> b in Word(options));
    }
  }

  /** ... that is, when the bits of all are those of the last. */
  lemma HasAllIff(options: seq<string>)
    ensures LastModeHasAll(options)
       <==> forall b: Bit :: !b.SwitchBit? ==>
              (SetsMode(options, b) <==> LastMode(options).Some? && b in LastMode(options).value.Bits())
  {
    hide FlagOf, LastMode;
    LastModeIff(options);
    if LastModeHasAll(options) {
      if LastMode(options).Some? {
        var o :| o in options && FlagOf(o) == LastMode(options) && LastMode(options).value.Propagates?;
      } else {
        assert forall o :: o in options && FlagOf(o).Some? && FlagOf(o).value.Propagates? ==> LastMode(options).Some?;
      }
    } else {
      var o :| o in options && FlagOf(o).Some? && FlagOf(o).value.Propagates?
               && !(LastMode(options).Some? && FlagOf(o).value.Bits() <= LastMode(options).value.Bits());
      var b: Bit :| b in FlagOf(o).value.Bits()
                    && !(LastMode(options).Some? && b in LastMode(options).value.Bits()) by {
        assert ModeBit(FlagOf(o).value.m) in FlagOf(o).value.Bits();
      }
      assert SetsMode(options, b) && !b.SwitchBit?;
    }
  }

  // ----- reading an option string

  /** An option that changes the mount word. "defaults" stands in the table but has no bits. */
  predicate Flagged(option: string) {
    FlagOf(option).Some? && FlagOf(option) != Some(Defaults)
  }

  function DataOf(options: seq<string>): seq<string> {
    if options == [] then []
    else DataOf(options[..|options| - 1])
         + if Flagged(options[|options| - 1]) then [] else [options[|options| - 1]]
  }

  /** The data of a list: its options without the flags' texts, in order. */
  lemma {:induction false} DataInOrder(a: seq<string>, b: seq<string>)
    ensures DataOf(a + b) == DataOf(a) + DataOf(b)
    ensures |b| == 1 ==> DataOf(b) == if FlagOf(b[0]).Some? && b[0] != "defaults" then [] else b
    decreases |b|
  {
    hide FlagOf;
    if b == [] {
      assert a + b == a;
    } else {
      var n := |b| - 1;
      assert (a + b)[..|a| + n] == a + b[..n];
      DataInOrder(a, b[..n]);
      DefaultsOnly(b[n]);
    }
  }

  lemma DefaultsOnly(option: string)
    ensures Flagged(option) <==> FlagOf(option).Some? && option != "defaults"
  {
  }

  method ParseOptions(options: string) returns (flag: set<Bit>, data: string)
    ensures flag == Word(Split(options, ',')) && data == Join(DataOf(Split(options, ',')), ',')
  {
    hide FlagOf;
    flag := {};
    var values: seq<string> := [];
    var os := Split(options, ',');
    for i := 0 to |os|
      invariant flag == Word(os[..i]) && values == DataOf(os[..i])
    {
      assert os[..i + 1][..i] == os[..i];
      var f := FlagOf(os[i]);
      if f.Some? && f.value != Defaults {
        if f.value.Switches? && f.value.clear {
          flag := flag - f.value.Bits();
        } else {
          flag := flag + f.value.Bits();
        }
      } else {
        values := values + [os[i]];
      }
    }
    assert os[..|os|] == os;
    data := Join(values, ',');
  }

  ghost predicate ValidData(data: string) {
    forall o :: o in Split(data, ',') ==> ValidFlag(BeforeEquals(o))
  }

  method ParseTmpfsOptions(options: string) returns (r: Result<(set<Bit>, string), string>)
    ensures var os := Split(options, ',');
            var data := Join(DataOf(os), ',');
            r.Ok? == ValidData(data) && (r.Ok? ==> r.value == (Word(os), data))
  {
    hide ValidFlag, BeforeEquals, Split, Word, DataOf, Join;
    var flags, data := ParseOptions(options);
    var os := Split(data, ',');
    for i := 0 to |os|
      invariant forall k :: 0 <= k < i ==> ValidFlag(BeforeEquals(os[k]))
    {
      if !ValidFlag(BeforeEquals(os[i])) {
        return Err("Invalid tmpfs option");
      }
    }
    r := Ok((flags, data));
  }

  ghost predicate NoCommas(options: seq<string>) {
    forall o :: o in options ==> ',' !in o
  }

  lemma {:induction false} DataFrom(options: seq<string>)
    ensures forall o :: o in DataOf(options) <==> o in options && !Flagged(o)
  {
    hide FlagOf, Flagged;
    if options != [] {
      var n := |options| - 1;
      DataFrom(options[..n]);
      assert options == options[..n] + [options[n]];
    }
  }

  /** The options that reading finds in a list: the parts between the commas of each. */
  function Pieces(options: seq<string>): seq<string> {
    if options == [] then [] else Split(options[0], ',') + Pieces(options[1..])
  }

  lemma {:induction false} SplitTwo(a: string, b: string)
    ensures Split(a + "," + b, ',') == Split(a, ',') + Split(b, ',')
  {
    var s := a + "," + b;
    if a == "" {
      assert s[1..] == b;
    } else {
      assert s[1..] == a[1..] + "," + b && s[0] == a[0];
      SplitTwo(a[1..], b);
    }
  }

  /** Splitting a joined list finds the pieces of its options. */
  lemma {:induction false} SplitJoined(options: seq<string>)
    requires options != []
    ensures Split(Join(options, ','), ',') == Pieces(options)
  {
    var rest := options[1..];
    if rest == [] {
      assert Pieces(options) == Split(options[0], ',') + [];
    } else {
      SplitJoined(rest);
      SplitTwo(options[0], Join(rest, ','));
    }
  }

  lemma {:induction false} SplitHasNoSeparator(s: string)
    ensures NoCommas(Split(s, ','))
  {
    if s != "" {
      SplitHasNoSeparator(s[1..]);
      var rest := Split(s[1..], ',');
      assert rest[0] in rest;
    }
  }

  lemma {:induction false} PiecesFrom(options: seq<string>)
    ensures NoCommas(Pieces(options))
    ensures forall p :: p in Pieces(options) <==> exists o :: o in options && p in Split(o, ',')
  {
    hide Split;
    if options != [] {
      SplitHasNoSeparator(options[0]);
      PiecesFrom(options[1..]);
      assert options == [options[0]] + options[1..];
      forall p ensures p in Pieces(options) <==> exists o :: o in options && p in Split(o, ',') {
        if o :| o in options && p in Split(o, ',') {
          assert o == options[0] || o in options[1..];
        }
      }
    }
  }

  lemma NoFlag()
    ensures FlagOf("").None? && ValidFlag(BeforeEquals("")) && Split("", ',') == [""]
  {
  }

  /** Without a comma an option is one piece. */
  lemma {:induction false} PiecesAre(options: seq<string>)
    requires NoCommas(options)
    ensures Pieces(options) == options
  {
    if options != [] {
      PiecesAre(options[1..]);
      SplitFirst(options[0], ',', "");
      assert options == [options[0]] + options[1..];
    }
  }

  /** Reading a joined list is reading its pieces; that of an empty list is one empty option. */
  lemma ReadJoined(options: seq<string>)
    ensures var os := Split(Join(options, ','), ',');
            && Word(os) == Word(Pieces(options))
            && Join(DataOf(os), ',') == Join(DataOf(Pieces(options)), ',')
  {
    hide FlagOf, Split;
    NoFlag();
    if options == [] {
      assert [""][..0] == [] && DataOf([""]) == [] + [""] == [""];
    } else {
      SplitJoined(options);
    }
  }

  /** A piece that reading does not refuse. */
  predicate Readable(piece: string) {
    Flagged(piece) || ValidFlag(BeforeEquals(piece))
  }

  lemma DataIsValidIff(pieces: seq<string>)
    requires NoCommas(pieces)
    ensures ValidData(Join(DataOf(pieces), ',')) <==> forall p :: p in pieces ==> Readable(p)
  {
    hide FlagOf, ValidFlag, BeforeEquals, Flagged, Split;
    DataFrom(pieces);
    NoFlag();
    if DataOf(pieces) != [] {
      SplitJoin(DataOf(pieces), ',');
    }
  }

  /** Every piece of every option can be read. */
  ghost predicate AllReadable(options: seq<string>) {
    forall o, p :: o in options && p in Split(o, ',') ==> Readable(p)
  }

  /** Reading the joined form of any list succeeds exactly when no option in it has a piece between
      commas that is neither a flag nor a known name. */
  lemma ReadsBackIff(options: seq<string>)
    ensures ValidData(Join(DataOf(Split(Join(options, ','), ',')), ',')) <==> AllReadable(options)
  {
    hide Readable, Split, ValidData, NoCommas;
    ReadJoined(options);
    PiecesFrom(options);
    DataIsValidIff(Pieces(options));
  }

  /** What merging has accepted is readable, but for what follows a comma. */
  lemma AcceptedIsReadable(options: seq<string>)
    requires Accepted(options)
    ensures forall o :: o in LastPerKey(options) ==> Readable(o)
    ensures NoCommas(options) ==> NoCommas(LastPerKey(options)) && AllReadable(LastPerKey(options))
  {
    hide FlagOf, ValidFlag, BeforeEquals;
    var merged := LastPerKey(options);
    MergedFrom(options);
    if NoCommas(options) {
      forall o | o in merged ensures Split(o, ',') == [o] {
        SplitFirst(o, ',', "");
      }
    }
  }

  /** Merging a list, joining it and reading it: refused exactly for an option that merging refuses or a
      piece that reading refuses; otherwise the word and the data of the merged list's pieces. Without
      commas there is nothing that reading refuses, and the word is that of the whole list unless a
      mode was dropped. */
  method MergeAndRead(options: seq<string>) returns (r: Result<(set<Bit>, string), string>)
    ensures r.Ok? <==> Accepted(options) && AllReadable(LastPerKey(options))
    ensures NoCommas(options) ==> (r.Ok? <==> Accepted(options))
    ensures var pieces := Pieces(LastPerKey(options));
            r.Ok? ==> r.value == (Word(pieces), Join(DataOf(pieces), ','))
    ensures NoCommas(options) && r.Ok? ==> (r.value.0 == Word(options) <==> LastModeHasAll(options))
  {
    hide Accepted, LastPerKey, Word, DataOf, LastModeHasAll, ValidData, NoCommas, AllReadable, Join, Split, Pieces;
    var merged := MergeTmpfsOptions(options);
    if merged.Err? {
      return Err(merged.error);
    }
    AcceptedIsReadable(options);
    ReadsBackIff(merged.value);
    ReadJoined(merged.value);
    if NoCommas(options) {
      PiecesAre(merged.value);
      MergeKeepsWordIff(options);
    }
    r := ParseTmpfsOptions(Join(merged.value, ','));
  }

  /** A memory policy for two nodes merges, and is refused when it is read, because of its "2". */
  lemma CommaExample()
    ensures Accepted(["mpol=bind:0,2"]) && LastPerKey(["mpol=bind:0,2"]) == ["mpol=bind:0,2"]
    ensures !AllReadable(["mpol=bind:0,2"])
    ensures !ValidData(Join(DataOf(Split(Join(["mpol=bind:0,2"], ','), ',')), ','))
  {
    hide FlagOf, ValidFlag, BeforeEquals, Split, Readable, KeyOf, ValidData, DataOf, Join, LastPerKey;
    var option := "mpol=bind:0,2";
    NothingToMerge([option]) by { PolicyKey(option); }
    ReadsBackIff([option]);
    PolicyKey(option);
    PolicySplit(option);
    NotReadable();
    var pieces := Split(option, ',');
    assert option in [option] && pieces[1] in pieces;
  }

  lemma PolicySplit(option: string)
    requires option == "mpol=bind:0,2"
    ensures Split(option, ',') == ["mpol=bind:0", "2"]
  {
    hide Split;
    SplitFirst("mpol=bind:0", ',', "2");
    SplitFirst("2", ',', "");
    assert "mpol=bind:0" + [','] + "2" == option;
  }

  lemma {:induction false} BeforeEqualsIs(name: string, rest: string)
    requires '=' !in name
    ensures BeforeEquals(name + "=" + rest) == name && BeforeEquals(name) == name
  {
    if name != "" {
      assert (name + "=" + rest)[1..] == name[1..] + "=" + rest && name == [name[0]] + name[1..];
      BeforeEqualsIs(name[1..], rest);
    }
  }

  lemma PolicyKey(option: string)
    requires option == "mpol=bind:0,2"
    ensures KeyOf(option) == Some(Data("mpol"))
  {
    hide FlagOf, BeforeEquals;
    BeforeEqualsIs("mpol", "bind:0,2");
    assert "mpol" + "=" + "bind:0,2" == option && option[4] == '=';
    NotAFlag(option);
  }

  lemma NotAFlag(option: string)
    requires |option| == 13 && option[0] == 'm'
    ensures FlagOf(option).None?
  {
  }

  lemma NotReadable()
    ensures !Readable("2")
  {
    hide BeforeEquals;
    BeforeEqualsIs("2", "");
  }

  /** The recursive mode is dropped, and with it the bit that makes the other one recursive. */
  lemma DroppedModeExample()
    ensures !LastModeHasAll(["rshared", "private"])
    ensures Word(LastPerKey(["rshared", "private"])) != Word(["rshared", "private"])
  {
    var options := ["rshared", "private"];
    assert options[1..] == ["private"] && ["private"][1..] == [];
    assert FlagOf("rshared") == Some(Propagates(SHARED, true)) && FlagOf("private") == Some(Propagates(PRIVATE, false));
    assert LastMode(["private"]) == FlagOf("private");
    hide FlagOf;
    assert "rshared" in options && REC in FlagOf("rshared").value.Bits();
    MergeKeepsWordIff(options);
  }
}
