/** A disk as a reader sees it: blocks by number. */
module PlainDisk {
  type Data = seq<int>

  function BlockAt(disk: map<nat, Data>, block: nat): Data {
    if block in disk then disk[block] else []
  }
}
