/** The chromosome registry shared by the depth accumulator and the feature scorer. */
module Chromosomes {

  /** One entry of the registry: its name, its length and the numeric id
      (`refID`) that indexes every per-chromosome list. */
  datatype ChrEntry = ChrEntry(name: string, len: nat, refID: nat)

  /** Index of the first entry named `name`, or the size of the registry. */
  function FirstNamed(chrs: seq<ChrEntry>, name: string): (k: nat)
    ensures k <= |chrs|
    ensures k < |chrs| ==> chrs[k].name == name
    ensures forall k' :: 0 <= k' < k ==> chrs[k'].name != name
  {
    if |chrs| == 0 then 0
    else if chrs[0].name == name then 0
    else 1 + FirstNamed(chrs[1..], name)
  }

  /** The `find_if` lookup of the scorer: the `refID` of the first entry with
      that name, or the size of the registry when no entry has it. */
  function LookupRefID(chrs: seq<ChrEntry>, name: string): (r: nat)
    ensures (forall k :: 0 <= k < |chrs| ==> chrs[k].name != name) ==> r == |chrs|
    ensures forall k :: 0 <= k < |chrs| && chrs[k].name == name && FirstNamed(chrs, name) == k ==>
              r == chrs[k].refID
  {
    var k := FirstNamed(chrs, name);
    if k < |chrs| then chrs[k].refID else |chrs|
  }
}
