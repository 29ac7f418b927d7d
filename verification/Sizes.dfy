/** Sizes of the metadata area: data within a region, a region, and all the regions. */
module Sizes {
  const SECTOR_SIZE: int := 512
  const MDA_REGION_HDR_SIZE: int := 32
  const MIN_MDA_DATA_REGION_SIZE: int := 260_064
  const NUM_PRIMARY_MDA_REGIONS: int := 2
  const NUM_MDA_REGIONS: int := 4

  /** A requested data size, bounded from below by the minimum. */
  function MdaDataSize(bytes: nat): nat {
    if bytes > MIN_MDA_DATA_REGION_SIZE then bytes else MIN_MDA_DATA_REGION_SIZE
  }

  /** The sectors of a region with room for its header and `data` bytes. */
  function RegionSize(data: nat): nat {
    var bytes := data + MDA_REGION_HDR_SIZE;
    var sectors := bytes / SECTOR_SIZE;
    if sectors * SECTOR_SIZE != bytes then sectors + 1 else sectors
  }

  function DataSize(region: nat): int {
    region * SECTOR_SIZE - MDA_REGION_HDR_SIZE
  }

  function MdaSize(region: nat): nat {
    region * NUM_MDA_REGIONS
  }

  function RegionOfMda(mda: nat): nat {
    mda / NUM_MDA_REGIONS
  }

  /** A region is the smallest that holds the data, and dividing the whole area gives it back. */
  lemma RegionFits(data: nat)
    ensures DataSize(RegionSize(data)) >= data
    ensures forall region: nat | DataSize(region) >= data :: region >= RegionSize(data)
    ensures RegionOfMda(MdaSize(RegionSize(data))) == RegionSize(data)
    ensures RegionSize(DataSize(RegionSize(data))) == RegionSize(data)
    ensures DataSize(RegionSize(MdaDataSize(data))) >= data
    ensures RegionSize(MdaDataSize(data)) >= RegionSize(MIN_MDA_DATA_REGION_SIZE)
    ensures forall region: nat | DataSize(region) >= data && DataSize(region) >= MIN_MDA_DATA_REGION_SIZE ::
              region >= RegionSize(MdaDataSize(data))
  {
  }
}
