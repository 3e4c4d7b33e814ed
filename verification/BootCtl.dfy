/** bootctl's operations over the key-value store, statement by statement. */
module BootCtl {
  import opened BootConfig

  datatype Key =
    | AActive | ABootable | ASuccessful
    | BActive | BBootable | BSuccessful
    | Trying

  /** A store that differs from `c` in one property. */
  function With(c: Config, k: Key, v: bool): Config {
    match k
    case AActive => c.(a := c.a.(active := v))
    case ABootable => c.(a := c.a.(bootable := v))
    case ASuccessful => c.(a := c.a.(successful := v))
    case BActive => c.(b := c.b.(active := v))
    case BBootable => c.(b := c.b.(bootable := v))
    case BSuccessful => c.(b := c.b.(successful := v))
    case Trying => c.(trying := v)
  }

  /** The persistent store. Keys that were never written read as false. `budget`
      property writes still succeed; every later one reports an error, which is
      also how far a write sequence gets when power is cut. `commitRet` is what
      `property_commit` returns. */
  class Kvdb {
    var props: map<Key, bool>
    var budget: nat
    const commitRet: int

    constructor (budget: nat, commitRet: int)
      ensures Stored() == FACTORY && this.budget == budget && this.commitRet == commitRet
    {
      props := map[];
      this.budget := budget;
      this.commitRet := commitRet;
    }

    function GetBool(k: Key): bool
      reads this
    {
      if k in props then props[k] else false
    }

    function Stored(): Config
      reads this
    {
      Config(Slot(GetBool(AActive), GetBool(ABootable), GetBool(ASuccessful)),
             Slot(GetBool(BActive), GetBool(BBootable), GetBool(BSuccessful)),
             GetBool(Trying))
    }

    method SetBool(k: Key, v: bool) returns (ret: int)
      modifies this
      ensures ret < 0 <==> old(budget) == 0
      ensures Stored() == if old(budget) == 0 then old(Stored()) else With(old(Stored()), k, v)
      ensures budget == if old(budget) == 0 then 0 else old(budget) - 1
    {
      if budget == 0 {
        return -1;
      }
      props := props[k := v];
      assert forall j: Key :: GetBool(j) == if j == k then v else old(GetBool(j));
      hide GetBool;
      budget := budget - 1;
      ret := 0;
    }

    /** Seven writes in a fixed order and a commit; the first failing write ends the call. */
    method WriteConfig(boot: Config) returns (ret: int)
      modifies this
      ensures Stored() == Torn(old(Stored()), boot, old(budget))
      ensures if old(budget) < 7 then ret < 0 else ret == commitRet
      ensures budget == if old(budget) < 7 then 0 else old(budget) - 7
    {
      hide Stored;
      ret := SetBool(AActive, boot.a.active);
      if ret < 0 { return; }
      ret := SetBool(ABootable, boot.a.bootable);
      if ret < 0 { return; }
      ret := SetBool(ASuccessful, boot.a.successful);
      if ret < 0 { return; }
      ret := SetBool(BActive, boot.b.active);
      if ret < 0 { return; }
      ret := SetBool(BBootable, boot.b.bootable);
      if ret < 0 { return; }
      ret := SetBool(BSuccessful, boot.b.successful);
      if ret < 0 { return; }
      ret := SetBool(Trying, boot.trying);
      if ret < 0 { return; }
      ret := commitRet;
    }

    method ReadConfig() returns (boot: Config)
      ensures boot == Stored()
    {
      var a := Slot(GetBool(AActive), GetBool(ABootable), GetBool(ASuccessful));
      var b := Slot(GetBool(BActive), GetBool(BBootable), GetBool(BSuccessful));
      boot := Config(a, b, GetBool(Trying));
    }

    /** Name of the active slot, if there is one; slot A wins. */
    method Active() returns (found: bool, slot: SlotId)
      ensures found <==> Stored().a.active || Stored().b.active
      ensures found ==> slot == Current(Stored()) && Get(Stored(), slot).active
    {
      var boot := ReadConfig();
      if boot.a.active {
        return true, A;
      } else if boot.b.active {
        return true, B;
      }
      return false, A;
    }

    method Update() returns (ret: int)
      modifies this
      ensures Stored() == Torn(old(Stored()), BootConfig.Update(old(Stored())), old(budget))
      ensures if old(budget) < 7 then ret < 0 else ret == commitRet
    {
      var boot := ReadConfig();
      if boot.a.active {
        boot := boot.(b := boot.b.(successful := false));
        boot := boot.(b := boot.b.(bootable := false));
        boot := boot.(b := boot.b.(active := false));
      } else {
        boot := boot.(a := boot.a.(successful := false));
        boot := boot.(a := boot.a.(bootable := false));
        boot := boot.(a := boot.a.(active := false));
      }
      ret := WriteConfig(boot);
    }

    method Done() returns (ret: int)
      modifies this
      ensures Stored() == Torn(old(Stored()), BootConfig.Done(old(Stored())), old(budget))
      ensures if old(budget) < 7 then ret < 0 else ret == commitRet
    {
      var boot := ReadConfig();
      if boot.a.active {
        boot := boot.(b := boot.b.(bootable := true));
        boot := boot.(b := boot.b.(active := true));
        boot := boot.(a := boot.a.(active := false));
      } else {
        boot := boot.(a := boot.a.(bootable := true));
        boot := boot.(a := boot.a.(active := true));
        boot := boot.(b := boot.b.(active := false));
      }
      ret := WriteConfig(boot);
    }

    /** Writes nothing, and cannot fail, when the current slot is already successful. */
    method Success() returns (ret: int)
      modifies this
      ensures Stored() == Torn(old(Stored()), BootConfig.Success(old(Stored())), old(budget))
      ensures if Get(old(Stored()), Current(old(Stored()))).successful then ret == 0
              else if old(budget) < 7 then ret < 0
              else ret == commitRet
    {
      var boot := ReadConfig();
      ret := 0;
      if boot.a.active {
        if !boot.a.successful {
          boot := boot.(trying := false);
          boot := boot.(a := boot.a.(successful := true));
          ret := WriteConfig(boot);
        }
      } else {
        if !boot.b.successful {
          boot := boot.(trying := false);
          boot := boot.(b := boot.b.(successful := true));
          ret := WriteConfig(boot);
        }
      }
    }

    /** The boot loader's entry. A failed write does not stop the boot. */
    method Boot() returns (path: SlotId)
      modifies this
      ensures path == BootSlot(old(Stored()))
      ensures Stored() == Torn(old(Stored()), AfterBoot(old(Stored())), old(budget))
    {
      var boot := ReadConfig();
      var chosen := false;
      path := A;
      if !boot.a.active && !boot.b.active {
        boot := Config(Slot(true, true, false), CLEARED, true);
      } else {
        if boot.a.active && boot.a.bootable && !boot.a.successful {
          if boot.trying {
            boot := boot.(a := boot.a.(active := false));
            boot := boot.(a := boot.a.(bootable := false));
          } else {
            path := A;
            boot := boot.(trying := true);
            chosen := true;
          }
        } else if boot.b.active && boot.b.bootable && !boot.b.successful {
          if boot.trying {
            boot := boot.(b := boot.b.(active := false));
            boot := boot.(b := boot.b.(bootable := false));
          } else {
            path := B;
            boot := boot.(trying := true);
            chosen := true;
          }
        }
      }
      if !chosen {
        if boot.a.active && boot.a.successful {
          path := A;
        } else if boot.b.active && boot.b.successful {
          path := B;
        } else if boot.a.successful {
          path := A;
          boot := boot.(a := boot.a.(active := true));
        } else if boot.b.successful {
          path := B;
          boot := boot.(b := boot.b.(active := true));
          boot := boot.(b := boot.b.(bootable := true));
        } else {
          path := A;
          boot := boot.(a := boot.a.(active := true));
          boot := boot.(a := boot.a.(bootable := true));
        }
      }
      var _ := WriteConfig(boot);
    }
  }
}
