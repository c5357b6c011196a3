/**
 The routing record of one organization, the pool configuration it stands for
 and the fingerprint that decides whether a cached pool may be reused.
 */
module TenantConfig {
  import opened Wrappers

  // An organization id; 0 stands for the falsy ids the lookup answers with null.
  type Key = nat

  // Empty strings stand for NULL columns: the code treats both as absent.
  datatype Row = Row(isolated: bool, host: string, port: nat, name: string, user: string,
                     passwordEncrypted: string, ssl: bool)

  datatype Config = Config(host: string, port: nat, user: string, password: string, database: string, ssl: bool)

  datatype Fingerprint =
    | SharedMode
    | Isolated(key: Key, host: string, port: nat, name: string, user: string, passwordEncrypted: string, ssl: bool)

  // Decryption is a function of the stored value that may fail.
  type Decrypt = string -> Option<string>

  function PortOf(row: Row): nat {
    if row.port == 0 then 3306 else row.port
  }

  /** Err when the stored row cannot be used; Ok(None) is shared mode. */
  function Normalize(row: Option<Row>, decrypt: Decrypt): Result<Option<Config>, string> {
    if row.None? || !row.value.isolated then Ok(None)
    else
      var r := row.value;
      if r.host == "" || r.name == "" || r.user == "" then Err("incomplete isolated database configuration")
      else
        match decrypt(r.passwordEncrypted)
        case None => Err("cannot decrypt the stored password")
        case Some(p) => Ok(Some(Config(r.host, PortOf(r), r.user, p, r.name, r.ssl)))
  }

  function FingerprintOf(key: Key, row: Option<Row>): Fingerprint {
    if row.None? || !row.value.isolated then SharedMode
    else
      var r := row.value;
      Isolated(key, r.host, PortOf(r), r.name, r.user, r.passwordEncrypted, r.ssl)
  }

  /** The configuration a fingerprint stands for. */
  function ConfigOf(f: Fingerprint, decrypt: Decrypt): Option<Config> {
    match f
    case SharedMode => None
    case Isolated(_, host, port, name, user, passwordEncrypted, ssl) =>
      match decrypt(passwordEncrypted)
      case None => None
      case Some(p) => Some(Config(host, port, user, p, name, ssl))
  }

  lemma NormalizeIsConfigOf(key: Key, row: Option<Row>, decrypt: Decrypt)
    requires Normalize(row, decrypt).Ok?
    ensures Normalize(row, decrypt).value == ConfigOf(FingerprintOf(key, row), decrypt)
  {
  }

  /** Which rows are shared, which are usable, and with what configuration; the others are errors. */
  lemma NormalizeIff(row: Option<Row>, decrypt: Decrypt, config: Config)
    ensures Normalize(row, decrypt) == Ok(None) <==> row.None? || !row.value.isolated
    ensures Normalize(row, decrypt) == Ok(Some(config)) <==>
              && row.Some? && row.value.isolated && row.value.host != "" && row.value.name != "" && row.value.user != ""
              && config.host == row.value.host && config.database == row.value.name && config.user == row.value.user
              && config.port == (if row.value.port == 0 then 3306 else row.value.port)
              && decrypt(row.value.passwordEncrypted) == Some(config.password) && config.ssl == row.value.ssl
    ensures Normalize(row, decrypt).Err? <==>
              && row.Some? && row.value.isolated
              && (row.value.host == "" || row.value.name == "" || row.value.user == ""
                  || decrypt(row.value.passwordEncrypted) == None)
  {
  }

  /** Rows that differ in a column a pool is built from have different fingerprints. */
  lemma FingerprintTells(key: Key, a: Row, b: Row)
    requires a.isolated && b.isolated && FingerprintOf(key, Some(a)) == FingerprintOf(key, Some(b))
    ensures a.host == b.host && a.name == b.name && a.user == b.user && a.passwordEncrypted == b.passwordEncrypted
    ensures a.ssl == b.ssl && (a.port == b.port || {a.port, b.port} == {0, 3306})
  {
  }
}
