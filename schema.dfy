/** The rows of the store's relational schema (one datatype per table, as
    backend/src/types/index.ts declares them) and the database itself: one
    object whose fields are the tables the services read and write. Prices
    and amounts are integer cents. */
module Schema {

  datatype Item = Item(id: int, name: string, description: string, price: int, itemTypeId: int, imageUrl: string)

  datatype Size = Size(id: int, name: string)

  /** A row of the ItemType-to-Size association table (no key of its own). */
  datatype ItemTypeSize = ItemTypeSize(itemTypeId: int, sizeId: int)

  /** The stock count of one (item, size) pair. Stock is an `int`: nothing in
      the order flow keeps it from going below zero. */
  datatype ItemAvailability = ItemAvailability(id: int, itemId: int, sizeId: int, quantityInStock: int)

  datatype User = User(id: int, name: string, email: string, roleId: int)

  datatype Role = Role(id: int, name: string)

  datatype Permission = Permission(id: int, action: string, description: string)

  /** A row of the Role-to-Permission association table (no key of its own). */
  datatype RolePermission = RolePermission(roleId: int, permissionId: int)

  datatype Order = Order(id: int, userId: int, orderDate: string, totalAmount: int, status: string)

  datatype OrderLine = OrderLine(id: int, orderId: int, itemId: int, sizeId: int, quantity: int, priceAtTimeOfOrder: int)

  /** The SQLite database: each table is the sequence of its rows in rowid
      order. */
  class Store {
    var items: seq<Item>
    var sizes: seq<Size>
    var itemTypeSizes: seq<ItemTypeSize>
    var availability: seq<ItemAvailability>
    var users: seq<User>
    var roles: seq<Role>
    var permissions: seq<Permission>
    var rolePermissions: seq<RolePermission>
    var orders: seq<Order>
    var orderLines: seq<OrderLine>

    /** A fresh, empty database. */
    constructor ()
      ensures items == [] && sizes == [] && itemTypeSizes == [] && availability == []
      ensures users == [] && roles == [] && permissions == [] && rolePermissions == []
      ensures orders == [] && orderLines == []
    {
      items, sizes, itemTypeSizes, availability := [], [], [], [];
      users, roles, permissions, rolePermissions := [], [], [], [];
      orders, orderLines := [], [];
    }
  }
}
