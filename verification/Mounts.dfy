// Mount records and the backend TLS policy they carry.
module Mounts {
  import opened Wrappers

  datatype Backend = Backend(
    caFile: string,
    serverName: string,
    clientCertificateFile: string,
    clientPrivateKeyFile: string,
    minimumVersion: string)

  // Exactly one of `path` and `source` is set in a valid mount.
  datatype Mount = Mount(
    path: string,
    source: string,
    target: string,
    priority: int,
    server: string,
    protocol: string,
    tls: Option<Backend>)
}
