/**
  The four service databases the generator can target, keyed "1" to "4",
  and the display name of a key.
 */
module Targets {

  /** The fields of one MySQL connection string. */
  datatype Connection = Connection(port: string, database: string, user: string, password: string)

  /** Renders a connection in the `Key=Value;` form the MySQL connector reads. */
  function ConnectionString(c: Connection): string {
    "Server=127.0.0.1;Port=" + c.port + ";Database=" + c.database
      + ";User=" + c.user + ";Password=" + c.password + ";"
  }

  /** The fixed key-to-connection table. */
  const DbOptions: map<string, Connection> := map[
    "1" := Connection("3307", "AuthServiceDb", "authuser", "authuser_password"),
    "2" := Connection("3308", "UserServiceDb", "userservice_user", "userservice_user_password"),
    "3" := Connection("3309", "MatchmakingServiceDb", "matchmakingservice_user", "matchmakingservice_user_password"),
    "4" := Connection("3310", "SwipeServiceDb", "swipeservice_user", "swipeservice_user_password")
  ]

  /** The key every run starts with and batch mode always selects. */
  const AuthKey: string := "1"

  const UnknownDbName: string := "Custom/Unknown"

  /**
    The display name of a key: the database of the known connection, and the
    fallback name for every other key.
   */
  function GetDbName(key: string): (name: string)
    ensures key in DbOptions ==> name == DbOptions[key].database
    ensures key !in DbOptions ==> name == UnknownDbName
    ensures name == UnknownDbName <==> key !in DbOptions
  {
    if key == "1" then "AuthServiceDb"
    else if key == "2" then "UserServiceDb"
    else if key == "3" then "MatchmakingServiceDb"
    else if key == "4" then "SwipeServiceDb"
    else UnknownDbName
  }
}
