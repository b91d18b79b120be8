/** auth_server/k8s/user_info.go: what authentication knows about a Kubernetes user. The groups, which end up in
    labels only, are left to the labels. */
module Users {
  import opened CacheKey

  datatype UserInfo = UserInfo(name: Text, uid: Text, bearerToken: Text)

  predicate IsValid(u: UserInfo) {
    u.name != [] && u.uid != [] && u.bearerToken != []
  }
}
