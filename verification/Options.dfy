/** The conventional optional value: the C# and TypeScript sources write it as a nullable. */
module Options {
  datatype Option<+T> = None | Some(value: T)
}
