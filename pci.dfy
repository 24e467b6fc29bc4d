/** pci_read_dword (pci.c): PCI Configuration Mechanism #1, section
    3.2.2.3.2 of the PCI Local Bus Specification 3.0. The dword is written
    to CONFIG_ADDRESS (0xCF8) and the answer read from CONFIG_DATA (0xCFC);
    the machine's configuration space is given as a function from the
    address dword to the value the data port returns. */
module Pci {
  import opened CTypes

  const PCI_CONFIG_ADDRESS := 0xCF8
  const PCI_CONFIG_DATA := 0xCFC

  /** The address dword: enable bit 31, bus in bits 23-16, device shifted
      to bit 11, function to bit 8, and the register offset with its low
      two bits cleared. The operands are ORed, as in the C expression; the
      arguments are the C function's uint8_t parameters. */
  function ConfigAddress(bus: bv8, device: bv8, func: bv8, offset: bv8): bv32
  {
    (bus as bv32 << 16) | (device as bv32 << 11) | (func as bv32 << 8) | (offset as bv32 & 0xFC) | 0x8000_0000
  }

  /** pci_read_dword: the value configuration space holds at the address. */
  function ReadDword(config: bv32 -> bv32, bus: bv8, device: bv8, func: bv8, offset: bv8): bv32
  {
    config(ConfigAddress(bus, device, func, offset))
  }

  /** Whatever the arguments, the enable bit is set and the reserved bits
      30-24 and the two low bits are zero: no shifted uint8_t reaches them. */
  lemma ConfigAddressReserved(bus: bv8, device: bv8, func: bv8, offset: bv8)
    ensures var a := ConfigAddress(bus, device, func, offset);
      && a >> 31 == 1
      && (a >> 24) & 0x7F == 0
      && a & 0x3 == 0
  {
  }

  /** For a device number below 32 and a function below 8 every field lands
      in its own bits: bus, device, function and the dword-aligned register
      can be read back from the address. */
  lemma ConfigAddressFields(bus: bv8, device: bv8, func: bv8, offset: bv8)
    requires device < 32 && func < 8
    ensures var a := ConfigAddress(bus, device, func, offset);
      && (a >> 16) & 0xFF == bus as bv32
      && (a >> 11) & 0x1F == device as bv32
      && (a >> 8) & 0x7 == func as bv32
      && a & 0xFF == (offset & 0xFC) as bv32
  {
  }

  /** Two in-range requests address the same register exactly when their
      bus, device, function and dword-aligned offset agree. */
  lemma ConfigAddressInjective(b1: bv8, d1: bv8, f1: bv8, o1: bv8, b2: bv8, d2: bv8, f2: bv8, o2: bv8)
    requires d1 < 32 && f1 < 8 && d2 < 32 && f2 < 8
    ensures ConfigAddress(b1, d1, f1, o1) == ConfigAddress(b2, d2, f2, o2)
      <==> b1 == b2 && d1 == d2 && f1 == f2 && o1 & 0xFC == o2 & 0xFC
  {
    var a1, a2 := ConfigAddress(b1, d1, f1, o1), ConfigAddress(b2, d2, f2, o2);
    if a1 == a2 {
      ConfigAddressFields(b1, d1, f1, o1);
      ConfigAddressFields(b2, d2, f2, o2);
      assert b1 as bv32 == b2 as bv32 && d1 as bv32 == d2 as bv32 && f1 as bv32 == f2 as bv32;
      assert (o1 & 0xFC) as bv32 == (o2 & 0xFC) as bv32;
    }
  }

  /** Device numbers are not masked: device 32 spills into the bus field
      and addresses device 0 of the next bus. */
  lemma DeviceSpillsIntoBus()
    ensures ConfigAddress(0, 32, 0, 0) == ConfigAddress(1, 0, 0, 0)
  {
  }
}
