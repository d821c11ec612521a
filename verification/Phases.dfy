/** The two kinds of messages of Bracha's algorithm. */
module Phases {
  datatype Kind = Echo | Ready

  /** `origin`'s own Echo or Ready, whoever passes it on. */
  datatype Key = Key(kind: Kind, origin: nat)
}
