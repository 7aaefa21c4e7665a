/** The static role -> capability table of the application (`PERMISSIONS`).
    A session's role and the capability asked for arrive as strings; names
    outside the table are looked up as JavaScript `undefined`, which is falsy. */
module Permissions {
  import opened JsArray

  datatype Role = Admin | Manager | Worker

  datatype Capability =
    | CanViewDashboard
    | CanAddRecords
    | CanEditRecords
    | CanDeleteRecords
    | CanViewHistory
    | CanExportData
    | CanManageUsers
    | CanViewInventory
    | CanApproveBottling
    | CanViewAllModules
    | CanAccessBackoffice

  /** The table's row key for a role name, if the table has that row. */
  function RoleNamed(name: string): (r: Option<Role>)
    ensures r == Some(Admin) <==> name == "admin"
    ensures r == Some(Manager) <==> name == "manager"
    ensures r == Some(Worker) <==> name == "worker"
  {
    if name == "admin" then Some(Admin)
    else if name == "manager" then Some(Manager)
    else if name == "worker" then Some(Worker)
    else None
  }

  function CapabilityNamed(name: string): Option<Capability>
  {
    match name
    case "canViewDashboard" => Some(CanViewDashboard)
    case "canAddRecords" => Some(CanAddRecords)
    case "canEditRecords" => Some(CanEditRecords)
    case "canDeleteRecords" => Some(CanDeleteRecords)
    case "canViewHistory" => Some(CanViewHistory)
    case "canExportData" => Some(CanExportData)
    case "canManageUsers" => Some(CanManageUsers)
    case "canViewInventory" => Some(CanViewInventory)
    case "canApproveBottling" => Some(CanApproveBottling)
    case "canViewAllModules" => Some(CanViewAllModules)
    case "canAccessBackoffice" => Some(CanAccessBackoffice)
    case _ => None
  }

  /** One cell of `PERMISSIONS`. */
  function Granted(role: Role, cap: Capability): bool
  {
    match role
    case Admin => true
    case Manager => cap != CanApproveBottling
    case Worker =>
      cap in {CanViewDashboard, CanAddRecords, CanViewHistory, CanViewInventory, CanViewAllModules}
  }

  /** `PERMISSIONS[role] && PERMISSIONS[role][perm]` for names given as strings. */
  function Allows(roleName: string, capName: string): (b: bool)
    ensures b ==> RoleNamed(roleName).Some? && CapabilityNamed(capName).Some?
    ensures RoleNamed(roleName).Some? && CapabilityNamed(capName).Some? ==>
      b == Granted(RoleNamed(roleName).value, CapabilityNamed(capName).value)
  {
    match (RoleNamed(roleName), CapabilityNamed(capName))
    case (Some(role), Some(cap)) => Granted(role, cap)
    case _ => false
  }

  /** The roles are nested: whatever a worker may do a manager may do, and
      whatever a manager may do an admin may do. */
  lemma RolesNested(cap: Capability)
    ensures Granted(Worker, cap) ==> Granted(Manager, cap)
    ensures Granted(Manager, cap) ==> Granted(Admin, cap)
  {
  }

  /** An admin holds every capability; a manager lacks exactly bottling approval. */
  lemma AdminAndManagerRows(cap: Capability)
    ensures Granted(Admin, cap)
    ensures Granted(Manager, cap) <==> cap != CanApproveBottling
  {
  }

  /** A worker lacks editing, deleting, exporting, user management, bottling
      approval and the back office, and holds the other five capabilities. */
  lemma WorkerRow(cap: Capability)
    ensures !Granted(Worker, cap) <==>
      cap in {CanEditRecords, CanDeleteRecords, CanExportData, CanManageUsers,
              CanApproveBottling, CanAccessBackoffice}
  {
  }

  /** A role or capability name outside the table grants nothing. */
  lemma UnknownNamesGrantNothing(roleName: string, capName: string)
    requires RoleNamed(roleName).None? || CapabilityNamed(capName).None?
    ensures !Allows(roleName, capName)
  {
  }
}
