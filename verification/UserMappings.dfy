/** The `user_mappings` columns that tie a tag to a Lago customer and to the account that owns it. */
module UserMappings {
  import opened Wrappers

  datatype Mapping = Mapping(lago: Option<string>, user: Option<string>)

  type Mappings = map<nat, Mapping>

  /** What the trigger of migration 0026 keeps: all owned mappings of one Lago customer have one owner. */
  ghost predicate OneOwner(ms: Mappings) {
    forall i, j :: i in ms && j in ms && ms[i].lago.Some? && ms[i].lago == ms[j].lago && ms[i].user.Some? && ms[j].user.Some?
      ==> ms[i].user == ms[j].user
  }
}
