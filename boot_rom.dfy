/** `BootROMControl` (src/emu/io/boot-rom.ts): the enable flag of the boot ROM
    overlay and reads from the boot ROM image. Fetching the image is not part
    of this model: the image is an abstract byte sequence. */
module BootRom {
  import opened Common

  const BOOT_ROM_SIZE := 0x100

  datatype BootRomError = BootRomDisabled

  class BootROMControl {
    var enabled: bool
    var bootRom: seq<Byte>

    /** Enabled, over the default image of 256 zero bytes. */
    constructor ()
      ensures enabled && bootRom == seq(BOOT_ROM_SIZE, _ => 0)
    {
      enabled := true;
      bootRom := seq(BOOT_ROM_SIZE, _ => 0);
    }

    method IsEnabled() returns (r: bool)
      ensures r == enabled
    {
      return enabled;
    }

    /** Enables the overlay; the image is kept. Doing it twice is doing it once. */
    method Reset()
      modifies this
      ensures enabled && bootRom == old(bootRom)
    {
      enabled := true;
    }

    /** Disables the overlay; the image is kept. */
    method Disable()
      modifies this
      ensures !enabled && bootRom == old(bootRom)
    {
      enabled := false;
    }

    /** `readByte`: fails whenever the overlay is disabled, otherwise returns the
        image byte. An index past the image (JavaScript `undefined`) is excluded. */
    method ReadByte(addr: int) returns (r: Result<Byte, BootRomError>)
      requires enabled ==> 0 <= addr < |bootRom|
      ensures r.Err? <==> !enabled
      ensures r.Ok? ==> r.value == bootRom[addr]
    {
      if !enabled {
        return Err(BootRomDisabled);
      }
      return Ok(bootRom[addr]);
    }
  }
}
