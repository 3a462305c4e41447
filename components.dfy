/**
 * The stateful components of the application. Each handler runs to completion
 * on the current state: it computes the new collection, replaces the in-memory
 * one and overwrites the stored snapshot with it.
 */
module Components {
  import opened Wrappers
  import opened Records
  import opened Filtering
  import opened Persistence

  /** The registry of liked users, kept under its own storage key. */
  class LikedUsersProvider {
    const storage: LocalStorage
    var likedUsers: seq<User>

    /** Memory agrees with storage: the stored snapshot, or the empty list when none is stored. */
    ghost predicate Mirrors()
      reads this, storage
    {
      likedUsers == Lookup(storage.entries, LikedUsersKey).GetOr([])
    }

    /** Initial load: the stored liked list, or the empty list when the key is absent. */
    constructor (storage: LocalStorage)
      ensures this.storage == storage
      ensures Lookup(storage.entries, LikedUsersKey).None? ==> likedUsers == []
      ensures Lookup(storage.entries, LikedUsersKey).Some? ==>
                likedUsers == Lookup(storage.entries, LikedUsersKey).value
      ensures Mirrors()
    {
      this.storage := storage;
      var stored := storage.GetItem(LikedUsersKey);
      likedUsers := if stored.Some? then stored.value else [];
    }

    /** Appends `user` with no duplicate check and saves the whole list. */
    method AddLikedUser(user: User)
      modifies this, storage
      ensures likedUsers == old(likedUsers) + [user]
      ensures |likedUsers| == |old(likedUsers)| + 1
      ensures storage.entries == old(storage.entries)[LikedUsersKey := likedUsers]
      ensures Mirrors()
    {
      var updated := likedUsers + [user];
      likedUsers := updated;
      storage.SetItem(LikedUsersKey, updated);
    }

    /** Drops every entry with `email`, keeping the others in order, and saves the whole list. */
    method RemoveLikedUser(email: string)
      modifies this, storage
      ensures likedUsers == WithoutEmail(old(likedUsers), email)
      ensures !HasEmail(likedUsers, email)
      ensures !HasEmail(old(likedUsers), email) ==> likedUsers == old(likedUsers)
      ensures storage.entries == old(storage.entries)[LikedUsersKey := likedUsers]
      ensures Mirrors()
    {
      var updated := WithoutEmail(likedUsers, email);
      WithoutEmailUnchanged(likedUsers, email);
      likedUsers := updated;
      storage.SetItem(LikedUsersKey, updated);
    }
  }

  /** The root component: the user directory and the liked-users registry it provides. */
  class App {
    const storage: LocalStorage
    const likedProvider: LikedUsersProvider
    var users: seq<User>

    /** The directory and the registry write to the same storage. */
    ghost predicate Valid()
      reads this, likedProvider
    {
      likedProvider.storage == storage
    }

    /** Initial load: the stored directory as it is (even when empty), or the single
        seeded record when the key is absent; nothing is written. */
    constructor (storage: LocalStorage)
      ensures this.storage == storage && Valid() && fresh(likedProvider)
      ensures Lookup(storage.entries, UsersKey).None? ==>
                users == [DefaultUser] && users[0].email == "Xojiakbar422@gmail.com"
      ensures Lookup(storage.entries, UsersKey).Some? ==>
                users == Lookup(storage.entries, UsersKey).value
      ensures Lookup(storage.entries, LikedUsersKey).None? ==> likedProvider.likedUsers == []
      ensures likedProvider.Mirrors()
      ensures storage.entries == old(storage.entries)
    {
      this.storage := storage;
      var stored := storage.GetItem(UsersKey);
      users := if stored.Some? then stored.value else [DefaultUser];
      likedProvider := new LikedUsersProvider(storage);
    }

    /** Appends `user` (duplicate emails allowed) and saves the whole directory. */
    method AddUser(user: User)
      requires Valid()
      modifies this, storage
      ensures Valid()
      ensures users == old(users) + [user]
      ensures storage.entries == old(storage.entries)[UsersKey := users]
      ensures Lookup(storage.entries, LikedUsersKey) == old(Lookup(storage.entries, LikedUsersKey))
      ensures likedProvider.likedUsers == old(likedProvider.likedUsers)
      ensures old(likedProvider.Mirrors()) ==> likedProvider.Mirrors()
    {
      var updated := users + [user];
      users := updated;
      storage.SetItem(UsersKey, updated);
    }

    /** Drops every record with `email`, keeping the others in order, and saves the whole
        directory. The liked-users registry is not touched: deletion does not cascade. */
    method DeleteUser(email: string)
      requires Valid()
      modifies this, storage
      ensures Valid()
      ensures users == WithoutEmail(old(users), email)
      ensures !HasEmail(users, email)
      ensures !HasEmail(old(users), email) ==> users == old(users)
      ensures storage.entries == old(storage.entries)[UsersKey := users]
      ensures Lookup(storage.entries, LikedUsersKey) == old(Lookup(storage.entries, LikedUsersKey))
      ensures likedProvider.likedUsers == old(likedProvider.likedUsers)
      ensures old(likedProvider.Mirrors()) ==> likedProvider.Mirrors()
    {
      var updated := WithoutEmail(users, email);
      WithoutEmailUnchanged(users, email);
      users := updated;
      storage.SetItem(UsersKey, updated);
    }
  }

  /** One card of the directory, with its own Liked/Unliked state. */
  class UserCard {
    const user: User
    const app: App
    var isLiked: bool

    /** The initial state comes from a fresh read of the stored liked list, not from the
        registry's memory; the two agree whenever the registry mirrors storage. */
    constructor (user: User, app: App)
      requires app.Valid()
      ensures this.user == user && this.app == app
      ensures isLiked <==>
                Lookup(app.storage.entries, LikedUsersKey).Some? &&
                HasEmail(Lookup(app.storage.entries, LikedUsersKey).value, user.email)
      ensures app.likedProvider.Mirrors() ==>
                isLiked == HasEmail(app.likedProvider.likedUsers, user.email)
    {
      this.user := user;
      this.app := app;
      var stored := app.storage.GetItem(LikedUsersKey);
      isLiked := stored.Some? && HasEmail(stored.value, user.email);
    }

    /** Unliked: add the card's record to the registry; Liked: remove its email; then flip.
        Afterwards the card's state agrees with the registry, whatever it was before. */
    method HandleLike()
      requires app.Valid()
      modifies this, app.likedProvider, app.storage
      ensures app.Valid()
      ensures !old(isLiked) ==> app.likedProvider.likedUsers == old(app.likedProvider.likedUsers) + [user]
      ensures old(isLiked) ==>
                app.likedProvider.likedUsers == WithoutEmail(old(app.likedProvider.likedUsers), user.email)
      ensures isLiked == !old(isLiked)
      ensures isLiked == HasEmail(app.likedProvider.likedUsers, user.email)
      ensures app.storage.entries == old(app.storage.entries)[LikedUsersKey := app.likedProvider.likedUsers]
      ensures app.users == old(app.users)
      ensures app.likedProvider.Mirrors()
    {
      if !isLiked {
        app.likedProvider.AddLikedUser(user);
        assert app.likedProvider.likedUsers[|app.likedProvider.likedUsers| - 1] == user;
      } else {
        app.likedProvider.RemoveLikedUser(user.email);
      }
      isLiked := !isLiked;
    }

    /** The Delete button: removes every record with the card's email from the directory. */
    method HandleDelete()
      requires app.Valid()
      modifies app, app.storage
      ensures app.Valid()
      ensures app.users == WithoutEmail(old(app.users), user.email)
      ensures app.storage.entries == old(app.storage.entries)[UsersKey := app.users]
      ensures app.likedProvider.likedUsers == old(app.likedProvider.likedUsers)
    {
      app.DeleteUser(user.email);
    }
  }

  /** Pressing Like and then Unlike on a card whose email was not liked restores the
      registry's list; its key in storage then holds that list (written even if it was
      absent before) and every other key is as it was. */
  method LikeThenUnlike(card: UserCard)
    requires card.app.Valid() && card.app.likedProvider.Mirrors()
    requires !card.isLiked
    requires !HasEmail(card.app.likedProvider.likedUsers, card.user.email)
    modifies card, card.app.likedProvider, card.app.storage
    ensures card.app.likedProvider.likedUsers == old(card.app.likedProvider.likedUsers)
    ensures card.app.storage.entries ==
              old(card.app.storage.entries)[LikedUsersKey := old(card.app.likedProvider.likedUsers)]
    ensures card.app.users == old(card.app.users)
    ensures !card.isLiked
  {
    ghost var before := card.app.likedProvider.likedUsers;
    card.HandleLike();
    card.HandleLike();
    AppendThenRemoveRestores(before, card.user);
  }

  /** The add-user form: one record under edit, handed to the directory on submit. */
  class AddUserForm {
    const app: App
    var formData: User

    constructor (app: App)
      ensures this.app == app && formData == BlankForm
    {
      this.app := app;
      formData := BlankForm;
    }

    /** Typing into input `field`: only that field changes. */
    method HandleInputChange(field: Field, value: string)
      modifies this
      ensures formData == SetField(old(formData), field, value)
      ensures Get(formData, field) == Text(value)
      ensures forall g :: g != field ==> Get(formData, g) == Get(old(formData), g)
      ensures formData.image == old(formData).image
    {
      formData := SetField(formData, field, value);
    }

    /** Submitting: the record is appended to the directory and the form is blanked. */
    method HandleSubmit()
      requires app.Valid()
      modifies this, app, app.storage
      ensures app.Valid()
      ensures app.users == old(app.users) + [old(formData)]
      ensures app.storage.entries == old(app.storage.entries)[UsersKey := app.users]
      ensures app.likedProvider.likedUsers == old(app.likedProvider.likedUsers)
      ensures formData == BlankForm
    {
      app.AddUser(formData);
      formData := BlankForm;
    }
  }
}
