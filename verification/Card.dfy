/** The SD card: a store of 512-byte sectors addressed by LBA. Reading and writing one sector is
    total; a sector never written reads as zeros. */
module Card {
  import opened Bytes

  type Image = map<nat, Sector>

  function Read(d: Image, lba: nat): Sector {
    if lba in d then d[lba] else BLANK
  }

  class SdCard {
    var sectors: Image

    /** Every image the card has held after a write. A power failure leaves one of them. */
    ghost var history: seq<Image>

    constructor (contents: Image)
      ensures sectors == contents && history == []
    {
      sectors := contents;
      history := [];
    }

    method ReadSector(lba: nat) returns (s: Sector)
      ensures s == Read(sectors, lba)
    {
      s := if lba in sectors then sectors[lba] else BLANK;
    }

    method WriteSector(s: Sector, lba: nat)
      modifies this
      ensures sectors == old(sectors)[lba := s]
      ensures history == old(history) + [sectors]
    {
      sectors := sectors[lba := s];
      history := history + [sectors];
    }
  }
}
