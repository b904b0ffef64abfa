/** The entities the store keeps: users, wallets, and the user-with-wallet listing. */
module Models {
  import opened Wrappers
  import opened Money

  /** A point in time, read from a clock outside the model; seconds are the unit of TTLs. */
  type Time = int

  /** The zero `time.Time`, which an unset timestamp field holds. */
  const ZeroTime: Time := 0

  /** The zero `uuid.UUID`, which an unset UUID field holds. */
  const NilUuid: string := "00000000-0000-0000-0000-000000000000"

  /**
   * `models.User`. No modelled code changes a user after it is created, so a user is a value.
   * `Password` is the clear text the source keeps beside the hash.
   */
  datatype User = User(
    ID: int,
    UUID: string,
    Password: string,
    HashedPassword: string,
    FullName: string,
    Email: string,
    PasswordChangedAt: Option<Time>,
    CreatedAt: Time,
    UpdatedAt: Time,
    DeletedAt: Option<Time>)

  /** A snapshot of a wallet's fields, for stating what the store holds as a value. */
  datatype WalletRow = WalletRow(
    id: int,
    uuid: string,
    userId: int,
    balance: Money,
    createdAt: Time,
    updatedAt: Time,
    deletedAt: Option<Time>)

  /**
   * `models.Wallet`. The store hands out references to its own wallets and the ledger
   * handlers change `Balance` and `UpdatedAt` through them, so a wallet is an object. No
   * modelled code writes the other fields, which are therefore constants.
   */
  class Wallet {
    const ID: int
    const UUID: string
    const UserID: int
    var Balance: Money
    const CreatedAt: Time
    var UpdatedAt: Time
    const DeletedAt: Option<Time>

    constructor (id: int, uuid: string, userId: int, balance: Money, createdAt: Time, updatedAt: Time)
      ensures Row() == WalletRow(id, uuid, userId, balance, createdAt, updatedAt, None)
    {
      ID, UUID, UserID := id, uuid, userId;
      Balance := balance;
      CreatedAt, UpdatedAt := createdAt, updatedAt;
      DeletedAt := None;
    }

    function Row(): WalletRow
      reads this
    {
      WalletRow(ID, UUID, UserID, Balance, CreatedAt, UpdatedAt, DeletedAt)
    }
  }

  /** `database.UserWallet`: a user's fields joined with the id and balance of a wallet of theirs. */
  datatype UserWallet = UserWallet(
    ID: int,
    UUID: string,
    Password: string,
    HashedPassword: string,
    FullName: string,
    Email: string,
    PasswordChangedAt: Option<Time>,
    CreatedAt: Time,
    UpdatedAt: Time,
    WalletID: int,
    WalletBalance: Money)

  /** The listing entry for user `u` and wallet `w`. */
  function Join(u: User, w: WalletRow): (e: UserWallet)
    ensures e.ID == u.ID && e.Email == u.Email && e.WalletID == w.id && e.WalletBalance == w.balance
  {
    UserWallet(u.ID, u.UUID, u.Password, u.HashedPassword, u.FullName, u.Email,
               u.PasswordChangedAt, u.CreatedAt, u.UpdatedAt, w.id, w.balance)
  }

  /** Lookup keys, as predicates for `Seqs.FirstIndex`. */
  function EmailIs(email: string): User -> bool { (u: User) => u.Email == email }
  function IdIs(id: int): Wallet -> bool { (w: Wallet) => w.ID == id }
  function UserIdIs(userId: int): Wallet -> bool { (w: Wallet) => w.UserID == userId }
  function RowIdIs(id: int): WalletRow -> bool { (w: WalletRow) => w.id == id }
  function RowUserIdIs(userId: int): WalletRow -> bool { (w: WalletRow) => w.userId == userId }
}
