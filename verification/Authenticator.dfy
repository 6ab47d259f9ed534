/** The SOCKS5 authenticator: users kept in a red-black tree, found by name length and then name bytes. */
module Authenticator {
  import opened Options
  import opened Ordering
  import opened RbTree
  import D = Dictionary

  datatype User = User(name: Key, pass: Key)

  class Authenticator {
    const dict: D.Dictionary<User>

    constructor ()
      ensures Valid() && fresh(dict) && fresh(dict.tree) && dict.tree.repr == {} && Users() == map[]
    {
      dict := new D.Dictionary(LengthFirst);
    }

    ghost predicate Valid()
      reads dict, dict.tree, dict.tree.repr
    {
      dict.Valid() && dict.ord == LengthFirst && forall k | k in dict.items :: dict.items[k].name == k
    }

    /** The finite map that the authenticator stands for. */
    ghost function Users(): map<Key, User>
      reads dict
    {
      dict.items
    }

    ghost function Passwords(): map<Key, Key>
      reads dict
    {
      map name | name in Users() :: Users()[name].pass
    }

    /** authenticator_get: the registered user of that name, if there is one. */
    method Get(name: Key) returns (user: Option<User>)
      requires Valid()
      ensures user == if name in Users() then Some(Users()[name]) else None
    {
      var found, _, _, _ := dict.Find(name);
      user := if found != null then Some(dict.owner[found].value) else None;
    }

    /** The server's check of a name and a password: the user is known and the passwords are equal. */
    method Check(name: Key, pass: Key) returns (ok: bool)
      requires Valid()
      ensures ok <==> name in Users() && Users()[name].pass == pass
    {
      var user := Get(name);
      ok := user.Some? && user.value.pass == pass;
    }

    /** authenticator_add: a new name is registered, a known one is refused.  `node` is embedded in the user. */
    method Add(user: User, node: Node) returns (res: int)
      requires Valid() && node !in dict.tree.repr
      modifies dict, dict.tree, dict.tree.repr, node
      ensures Valid()
      ensures user.name in old(Users()) ==>
              res == -1 && Users() == old(Users()) && dict.tree.repr == old(dict.tree.repr)
      ensures user.name !in old(Users()) ==>
                res == 0 && Users() == old(Users())[user.name := user] && dict.tree.repr == old(dict.tree.repr) + {node}
    {
      var found, parent, left;
      ghost var c;
      found, parent, left, c := dict.Find(user.name);
      if found != null {
        return -1;
      }
      dict.Link(user.name, user, node, parent, left, c);
      res := 0;
    }

    /** authenticator_del: exactly the user of that name is removed. */
    method Del(name: Key) returns (res: int)
      requires Valid()
      modifies dict, dict.tree, dict.tree.repr
      ensures Valid() && dict.tree.repr <= old(dict.tree.repr)
      ensures res == if name in old(Users()) then 0 else -1
      ensures Users() == old(Users()) - {name}
    {
      var node, _, _, _ := dict.Find(name);
      if node == null {
        return -1;
      }
      dict.Remove(node, name);
      res := 0;
    }

    /** authenticator_clear: erase the first node until none is left. */
    method Clear()
      requires Valid()
      modifies dict, dict.tree, dict.tree.repr
      ensures Valid() && dict.tree.repr == {} && Users() == map[]
    {
      dict.Clear();
    }
  }
}
