/** The one name the application has for a person: the username string. Games, invites,
    status records and pair ids all key on it. */
module Users {
  type User = string
}
