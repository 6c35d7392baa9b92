/** The records that are serialised into the vault file (src/models.rs). */
module Models {

  /** One stored credential. Duplicate services are allowed; entries are
      addressed by their position only. */
  datatype PasswordEntry = PasswordEntry(service: string, username: string, password: string)

  /** The whole secret collection, in insertion (and display) order. */
  datatype PasswordStore = PasswordStore(entries: seq<PasswordEntry>)
}
