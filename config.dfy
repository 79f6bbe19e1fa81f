/**
 Start-up configuration: environment variables with defaults. The process
 environment is passed in as a map; `os.Getenv` reads an unset variable as "".
 */
module Config {

  /** What the process environment holds for `key`: "" when it is unset. */
  function Getenv(environ: map<string, string>, key: string): string {
    if key in environ then environ[key] else ""
  }

  /** getEnvVariable: the variable's value, or `defaultValue` when that is "". */
  function GetEnvVariable(environ: map<string, string>, key: string, defaultValue: string): (value: string)
    ensures Getenv(environ, key) != "" ==> value == environ[key]
    ensures Getenv(environ, key) == "" ==> value == defaultValue
  {
    var found := Getenv(environ, key);
    if found == "" then defaultValue else found
  }

  /** getListeningPort: ":" followed by VMS_PORT, 8080 by default. */
  function ListeningPort(environ: map<string, string>): (address: string)
    ensures |address| >= 2 && address[0] == ':'
    ensures address[1..] == GetEnvVariable(environ, "VMS_PORT", "8080")
  {
    ":" + GetEnvVariable(environ, "VMS_PORT", "8080")
  }

  /** The backend address getRedisClient dials: VMS_REDIS, 127.0.0.1:6379 by default. */
  function RedisAddress(environ: map<string, string>): (address: string)
    ensures Getenv(environ, "VMS_REDIS") == "" ==> address == "127.0.0.1:6379"
    ensures Getenv(environ, "VMS_REDIS") != "" ==> address == environ["VMS_REDIS"]
    ensures address != ""
  {
    GetEnvVariable(environ, "VMS_REDIS", "127.0.0.1:6379")
  }

  /** An unset variable and one set to "" both give the default. */
  lemma UnsetLikeEmpty(environ: map<string, string>, key: string, defaultValue: string)
    ensures GetEnvVariable(environ - {key}, key, defaultValue)
         == GetEnvVariable(environ[key := ""], key, defaultValue)
         == defaultValue
  {
  }

  /** With VMS_PORT unset or empty the service listens on ":8080"; otherwise on ":" + VMS_PORT. */
  lemma ListeningPortDefault(environ: map<string, string>)
    ensures Getenv(environ, "VMS_PORT") == "" ==> ListeningPort(environ) == ":8080"
    ensures Getenv(environ, "VMS_PORT") != "" ==> ListeningPort(environ) == ":" + environ["VMS_PORT"]
  {
  }
}
