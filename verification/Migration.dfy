/** A transfer of one block between two nodes (include/migration_info.hh). */
module Migration {

  /** Nodes are numbered from one.  The coefficient is zero for a block that only moves; otherwise the
      block is merged into what the target holds. */
  datatype Transfer = Transfer(source: nat, target: nat, coefficient: nat)
}
