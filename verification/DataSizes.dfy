/** The two loops the RAID levels start with: the smallest data size, and giving it to every base bdev. */
module DataSizes {

  method Least(dataSize: array<nat>) returns (least: nat, ghost which: nat)
    requires dataSize.Length > 0
    ensures which < dataSize.Length && least == dataSize[which]
    ensures forall d :: 0 <= d < dataSize.Length ==> least <= dataSize[d]
  {
    least, which := dataSize[0], 0;
    for i := 1 to dataSize.Length
      invariant which < dataSize.Length && least == dataSize[which]
      invariant forall d :: 0 <= d < i ==> least <= dataSize[d]
    {
      if dataSize[i] < least {
        least, which := dataSize[i], i;
      }
    }
  }

  method SetAll(dataSize: array<nat>, size: nat)
    modifies dataSize
    ensures forall d :: 0 <= d < dataSize.Length ==> dataSize[d] == size
  {
    for i := 0 to dataSize.Length
      invariant forall d :: 0 <= d < i ==> dataSize[d] == size
    {
      dataSize[i] := size;
    }
  }
}
