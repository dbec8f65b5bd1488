# spring-ldap-samples, modelled in Dafny

A model of the directory bookkeeping in the Spring LDAP samples, with proofs
about it. It covers three sample applications.

- **User-admin sample.** Users sit at `cn=<full name>,ou=<unit>,ou=<department>,ou=Departments`.
  Groups sit at `cn=<name>,ou=Groups`. A group's `member` attribute holds absolute user DNs.
  The model covers the user and group entries, and the service that creates and updates users,
  including how it repairs group references when an update moves a user. It also covers the
  group and user pages, and the department repository.
- **Boot security sample.** The model covers the person entry, the mapping from a bound entry
  to a user with a single ROLE_ADMIN or ROLE_USER authority, and the JSON form of directory
  attributes.
- **Plain sample.** The model covers the controller's person links and the phone-number update.

The directory server and the Spring Data repositories are replaced by an in-memory
directory (`Directory.Directory`). It keeps one map from relative DN to user entry and one
from relative DN to group entry.

**Distinguished names.** A DN is a sequence of `(type, value)` components, ordered from the root down.
- Building a name under a base is concatenation.
- `removeFirst` drops a prefix.
- `getStringValue` finds the first component of a type, counted from the root.
- Names compare structurally.

**Saving.** The DN a save gives an object is an explicit function of its DN attributes
(`Users.CalcId`, `Groups.GroupId`, `People.PersonId`). A repository save (`Directory.OdmSave`)
does one of three things:
- it creates a new object's entry;
- it updates in place an object whose DN is unchanged;
- it unbinds and rebinds an object whose DN attributes changed.

**The AD flavour.** A directory of kind `AD` clears a moved user's DN from every group. This
is the Active Directory behaviour that the service's AD path is built around. The model proves
the following about an update that moves a user:
- The AD path, which looks the groups up before the save, ends with every reference repointed
  on either kind of directory (`Service.UserService.UpdateUser`, via `Service.GroupsAfterMove`).
- The standard path does the same on a standard directory.
- On AD, the lookup after the save finds nothing (`Directory.LookupAfterMoveOnAdLosesMembership`).

**Side effects.** Objects whose fields the Java code changes are Dafny classes, and their
setters are methods. The view model of a controller is returned as the method's results.
Calls into the library that the model does not interpret are passed in as function parameters:
- DN parsing (`parse`) and printing (`show`);
- `URLEncoder.encode`;
- the hash of a name;
- `ldap.list`;
- the base visitor's link.

## Model

| member | source | states |
|---|---|---|
| Names.Add | servlet/xml/java/user-admin/src/main/java/org/springframework/ldap/samples/useradmin/service/UserService.java:94-96 | the built name starts with the base and continues with exactly the relative name; its length is the sum |
| Names.Prepend | servlet/xml/java/user-admin/src/main/java/org/springframework/ldap/samples/useradmin/domain/impl/GroupRepositoryImpl.java:75 | the result lies below the path and continues with exactly the given name |
| Names.RemoveFirst | servlet/xml/java/user-admin/src/main/java/org/springframework/ldap/samples/useradmin/service/UserService.java:110 | for a name under the prefix, putting the prefix back gives the name; a name not under the prefix comes back unchanged |
| Names.RemoveFirstAdd | servlet/xml/java/user-admin/src/main/java/org/springframework/ldap/samples/useradmin/service/UserService.java:94-112 | removing the base from a name built under that base gives the relative name back |
| Names.RemoveFirstInjective | servlet/xml/java/user-admin/src/main/java/org/springframework/ldap/samples/useradmin/service/UserService.java:108-112 | two names under the base that lose the base to the same relative name are equal |
| Names.GetStringValue | servlet/xml/java/user-admin/src/main/java/org/springframework/ldap/samples/useradmin/domain/impl/DepartmentRepositoryImpl.java:75-78 | a value is found if and only if some component has the key; it is the value of the first such component from the root; otherwise the lookup fails with NoSuchRdn |
| Users.CalcIdLayout | servlet/xml/java/user-admin/src/main/java/org/springframework/ldap/samples/useradmin/domain/User.java:35-69 | the calculated DN is ou=Departments, ou=department, ou=unit, cn=fullName; its cn is the full name, and its first ou component is Departments |
| Users.CalcIdOfUserDn | servlet/xml/java/user-admin/src/main/java/org/springframework/ldap/samples/useradmin/domain/User.java:35-69 | every DN of the user shape is the calculated DN of the department, unit and full name it holds |
| Users.CalcIdInjective | servlet/xml/java/user-admin/src/main/java/org/springframework/ldap/samples/useradmin/domain/User.java:41-43 | two users get the same DN if and only if department, unit and full name all agree |
| Users.User.constructor | servlet/xml/java/user-admin/src/main/java/org/springframework/ldap/samples/useradmin/domain/User.java:36-69 | a new user has no id, employee number 0 and every string field unset |
| Users.User.FromEntry | servlet/xml/java/user-admin/src/main/java/org/springframework/ldap/samples/useradmin/domain/User.java:38-69 | the object read from an entry holds its id, its stored attributes, and the department and unit taken from the DN |
| Users.User.CalculatedId | servlet/xml/java/user-admin/src/main/java/org/springframework/ldap/samples/useradmin/domain/User.java:41-69 | the DN a save gives the user has the user shape and its cn is the stored full name |
| Users.User.SetUnit | servlet/xml/java/user-admin/src/main/java/org/springframework/ldap/samples/useradmin/domain/User.java:75-77 | stores the unit and changes no other field |
| Users.User.SetDepartment | servlet/xml/java/user-admin/src/main/java/org/springframework/ldap/samples/useradmin/domain/User.java:83-85 | stores the department and changes no other field |
| Users.User.SetId | servlet/xml/java/user-admin/src/main/java/org/springframework/ldap/samples/useradmin/domain/User.java:91-93 | stores the id and changes no other field |
| Users.User.SetIdFromString | servlet/xml/java/user-admin/src/main/java/org/springframework/ldap/samples/useradmin/domain/User.java:95-97 | stores the name the string parses to |
| Users.User.SetEmail | servlet/xml/java/user-admin/src/main/java/org/springframework/ldap/samples/useradmin/domain/User.java:103-105 | stores the email and changes no other field |
| Users.User.SetEmployeeNumber | servlet/xml/java/user-admin/src/main/java/org/springframework/ldap/samples/useradmin/domain/User.java:111-113 | stores the employee number and changes no other field |
| Users.User.SetFirstName | servlet/xml/java/user-admin/src/main/java/org/springframework/ldap/samples/useradmin/domain/User.java:119-121 | stores the first name and changes no other field |
| Users.User.SetFullName | servlet/xml/java/user-admin/src/main/java/org/springframework/ldap/samples/useradmin/domain/User.java:127-129 | stores the full name and changes no other field |
| Users.User.SetLastName | servlet/xml/java/user-admin/src/main/java/org/springframework/ldap/samples/useradmin/domain/User.java:135-137 | stores the last name and changes no other field |
| Users.User.SetPhone | servlet/xml/java/user-admin/src/main/java/org/springframework/ldap/samples/useradmin/domain/User.java:143-145 | stores the phone and changes no other field |
| Users.User.SetTitle | servlet/xml/java/user-admin/src/main/java/org/springframework/ldap/samples/useradmin/domain/User.java:151-153 | stores the title and changes no other field |
| Users.User.Equals | servlet/xml/java/user-admin/src/main/java/org/springframework/ldap/samples/useradmin/domain/User.java:155-167 | a user equals another object if and only if that object is a user with the same id; no other field matters |
| Users.User.HashCode | servlet/xml/java/user-admin/src/main/java/org/springframework/ldap/samples/useradmin/domain/User.java:169-172 | the hash is 0 for a missing id and the hash of the id otherwise |
| Users.EqualUsersHashAlike | servlet/xml/java/user-admin/src/main/java/org/springframework/ldap/samples/useradmin/domain/User.java:155-172 | equal users have equal hash codes |
| Users.EqualsIsEquivalence | servlet/xml/java/user-admin/src/main/java/org/springframework/ldap/samples/useradmin/domain/User.java:155-167 | equals is reflexive, symmetric and transitive on users |
| Users.TransientFieldsNotStored | servlet/xml/java/user-admin/src/main/java/org/springframework/ldap/samples/useradmin/domain/User.java:63-69 | the stored entry does not depend on unit and department |
| Groups.GroupIdLayout | servlet/xml/java/user-admin/src/main/java/org/springframework/ldap/samples/useradmin/domain/Group.java:34-42 | a group DN is cn=name below ou=Groups, its cn is the name, and distinct names give distinct DNs |
| Groups.Group.GetMembers | servlet/xml/java/user-admin/src/main/java/org/springframework/ldap/samples/useradmin/domain/Group.java:58-60 | the result is the group's own member set object, not a copy |
| Groups.Group.constructor | servlet/xml/java/user-admin/src/main/java/org/springframework/ldap/samples/useradmin/domain/Group.java:47-48 | a new group has no id and a new, empty member set |
| Groups.Group.FromEntry | servlet/xml/java/user-admin/src/main/java/org/springframework/ldap/samples/useradmin/domain/Group.java:37-48 | the object read from an entry holds its id and exactly its attributes, in a new member set |
| Groups.Group.AddMember | servlet/xml/java/user-admin/src/main/java/org/springframework/ldap/samples/useradmin/domain/Group.java:62-64 | the member set becomes the old set plus the new member; adding a present member changes nothing |
| Groups.Group.RemoveMember | servlet/xml/java/user-admin/src/main/java/org/springframework/ldap/samples/useradmin/domain/Group.java:66-68 | the member set becomes the old set without that member; every other member stays |
| Groups.Group.SetId | servlet/xml/java/user-admin/src/main/java/org/springframework/ldap/samples/useradmin/domain/Group.java:74-76 | stores the id |
| Groups.Group.SetName | servlet/xml/java/user-admin/src/main/java/org/springframework/ldap/samples/useradmin/domain/Group.java:82-84 | stores the name |
| Groups.Group.SetDescription | servlet/xml/java/user-admin/src/main/java/org/springframework/ldap/samples/useradmin/domain/Group.java:54-56 | stores the description |
| Groups.AddThroughGroupSeenInView | servlet/xml/java/user-admin/src/main/java/org/springframework/ldap/samples/useradmin/domain/Group.java:58-64 | a set obtained from getMembers before addMember is the group's own set and shows the added member |
| Directory.OdmSave | servlet/xml/java/user-admin/src/main/java/org/springframework/ldap/samples/useradmin/service/UserService.java:141-153 | a save of a new object creates the entry at the calculated DN unless it is taken; a save with an unchanged DN replaces the attributes in place; a changed DN unbinds the old entry and binds the new one; every other entry is kept, and each failure names its error |
| Directory.ReplaceMemberMeaning | servlet/xml/java/user-admin/src/main/java/org/springframework/ldap/samples/useradmin/service/UserService.java:185-192 | after the intended repair no group references the old DN, the groups that did now reference the new DN with their other members kept, and every other group is unchanged |
| Directory.GroupsWithMember | servlet/xml/java/user-admin/src/main/java/org/springframework/ldap/samples/useradmin/domain/GroupRepository.java:53-54 | a subset of the group DNs, holding a group DN if and only if that group's member attribute holds dn |
| Service.GroupsAfterMove | servlet/xml/java/user-admin/src/main/java/org/springframework/ldap/samples/useradmin/service/UserService.java:141-183 | keeps every group DN; after a move no group references the old DN; with the AD ordering, or on a standard directory, every group that referenced the old DN references the new one; with the standard ordering on AD no group gains or loses the new DN |
| Directory.PatchAllAt | servlet/xml/java/user-admin/src/main/java/org/springframework/ldap/samples/useradmin/service/UserService.java:185-192 | patching and saving snapshots with distinct DNs changes exactly those DNs, each to its patched snapshot |
| Directory.RepairGivesReplaceMember | servlet/xml/java/user-admin/src/main/java/org/springframework/ldap/samples/useradmin/service/UserService.java:141-192 | patching the snapshots of exactly the referencing groups gives the intended repair, from any start that changed only referencing groups |
| Directory.WithoutMemberMeaning | servlet/xml/java/user-admin/src/main/java/org/springframework/ldap/samples/useradmin/service/UserService.java:155-161 | the AD clean-up leaves the moved DN in no group and changes only the groups that held it |
| Directory.LookupAfterMoveOnAdLosesMembership | servlet/xml/java/user-admin/src/main/java/org/springframework/ldap/samples/useradmin/service/UserService.java:155-170 | on AD a lookup after the move finds no group, and the user loses a membership it had |
| Directory.Directory.AfterUserUnbind | servlet/xml/java/user-admin/src/main/java/org/springframework/ldap/samples/useradmin/service/UserService.java:155-161 | a user save keeps the set of groups; on AD it changes only groups that referenced the unbound DN |
| Directory.Directory.SaveUser | servlet/xml/java/user-admin/src/main/java/org/springframework/ldap/samples/useradmin/service/UserService.java:142 | the user entries become what the save computes, the groups what the unbind leaves, and the id of the object the new DN on success |
| Directory.Directory.FindUserById | servlet/xml/java/user-admin/src/main/java/org/springframework/ldap/samples/useradmin/service/UserService.java:78 | a user is found if and only if there is an entry at the id, and it is read from that entry |
| Directory.Directory.FindUsersWhere | servlet/xml/java/user-admin/src/main/java/org/springframework/ldap/samples/useradmin/service/UserService.java:74 | the users returned are new, read from their entries, distinct by id, and are exactly those whose entries pass the filter |
| Directory.Directory.FindAllUsers | servlet/xml/java/user-admin/src/main/java/org/springframework/ldap/samples/useradmin/service/UserService.java:73-75 | one new user per stored entry, read from it, distinct by id |
| Directory.Directory.FindUsersByFullNameContains | servlet/xml/java/user-admin/src/main/java/org/springframework/ldap/samples/useradmin/service/UserService.java:194-196 | a stored user is returned if and only if its full name contains the text |
| Directory.Directory.Present | servlet/xml/java/user-admin/src/main/java/org/springframework/ldap/samples/useradmin/service/UserService.java:105 | a DN is kept if and only if it is among the ids and has an entry |
| Directory.Directory.FindAllUsersById | servlet/xml/java/user-admin/src/main/java/org/springframework/ldap/samples/useradmin/service/UserService.java:105 | one new user per id that has an entry, in the order of the ids, read from that entry |
| Directory.Directory.SaveGroup | servlet/xml/java/user-admin/src/main/java/org/springframework/ldap/samples/useradmin/service/UserService.java:89 | the group entries become what the save computes, and the id of the object the new DN on success |
| Directory.Directory.FindGroupByName | servlet/xml/java/user-admin/src/main/java/org/springframework/ldap/samples/useradmin/domain/GroupRepository.java:51 | null if and only if there is no group called name; else a new object read from the entry at cn=name,ou=Groups |
| Directory.Directory.FindGroupsByMember | servlet/xml/java/user-admin/src/main/java/org/springframework/ldap/samples/useradmin/domain/GroupRepository.java:53-54 | new objects, with their own member sets, for exactly the groups whose member attribute holds the DN, each once |
| Directory.Directory.KeysWithMember | servlet/xml/java/user-admin/src/main/java/org/springframework/ldap/samples/useradmin/domain/GroupRepository.java:53-54 | the DNs of exactly the groups whose member attribute holds the DN, each once |
| Directory.Directory.BindGroup | servlet/xml/java/user-admin/src/main/java/org/springframework/ldap/samples/useradmin/domain/impl/GroupRepositoryImpl.java:79 | a bind fails with NameAlreadyBound if and only if the DN is taken, and otherwise adds exactly that entry |
| Service.FoundSnapshots | servlet/xml/java/user-admin/src/main/java/org/springframework/ldap/samples/useradmin/service/UserService.java:149 | the snapshots of the groups findByMember returns have distinct DNs and cover exactly the groups that hold the DN |
| Service.FoundRepairIsReplace | servlet/xml/java/user-admin/src/main/java/org/springframework/ldap/samples/useradmin/service/UserService.java:144-151 | repairing the groups findByMember returned gives the intended repair |
| Service.ReplaceAfterClearIsClear | servlet/xml/java/user-admin/src/main/java/org/springframework/ldap/samples/useradmin/service/UserService.java:141-153 | on a directory that already cleared the old DN the repair finds nothing to change |
| Service.UserService.constructor | servlet/xml/java/user-admin/src/main/java/org/springframework/ldap/samples/useradmin/service/UserService.java:55-58 | the service works on the given repositories with their base path, on the standard path |
| Service.UserService.SetDirectoryType | servlet/xml/java/user-admin/src/main/java/org/springframework/ldap/samples/useradmin/service/UserService.java:64-66 | stores the directory type |
| Service.UserService.ToAbsoluteDn | servlet/xml/java/user-admin/src/main/java/org/springframework/ldap/samples/useradmin/service/UserService.java:94-96 | the absolute DN is the base path followed by the relative name, and removing the base gives the relative name back |
| Service.UserService.ToRelativeIds | servlet/xml/java/user-admin/src/main/java/org/springframework/ldap/samples/useradmin/service/UserService.java:108-112 | one id per absolute id, in order: a DN under the base loses the base, any other DN is unchanged |
| Service.UserService.RelativeOfAbsolute | servlet/xml/java/user-admin/src/main/java/org/springframework/ldap/samples/useradmin/service/UserService.java:94-112 | toRelativeIds of the absolute DNs of names gives the names back |
| Service.UserService.RelativeIdsOfElements | servlet/xml/java/user-admin/src/main/java/org/springframework/ldap/samples/useradmin/service/UserService.java:104-112 | converting the members of a set in any order gives the relative ids of the set |
| Service.UserService.GetUserGroup | servlet/xml/java/user-admin/src/main/java/org/springframework/ldap/samples/useradmin/service/UserService.java:60-62 | null if and only if there is no ROLE_USER group; else that group, read from its entry |
| Service.UserService.FindAll | servlet/xml/java/user-admin/src/main/java/org/springframework/ldap/samples/useradmin/service/UserService.java:73-75 | every stored user, each once, read from its entry |
| Service.UserService.SearchByName | servlet/xml/java/user-admin/src/main/java/org/springframework/ldap/samples/useradmin/service/UserService.java:194-196 | a stored user is returned if and only if its full name contains the text |
| Service.UserService.FindUser | servlet/xml/java/user-admin/src/main/java/org/springframework/ldap/samples/useradmin/service/UserService.java:77-80 | the stored user at the id, or NameNotFound if and only if there is none |
| Service.UserService.FindAllMembers | servlet/xml/java/user-admin/src/main/java/org/springframework/ldap/samples/useradmin/service/UserService.java:104-106 | the stored users whose relative ids the member DNs give, each once and read from its entry; member DNs without an entry are skipped |
| Service.UserService.FindDistinctById | servlet/xml/java/user-admin/src/main/java/org/springframework/ldap/samples/useradmin/service/UserService.java:105 | one user per id that has an entry, distinct by id, read from that entry |
| Service.UserService.KeptUsersLoaded | servlet/xml/java/user-admin/src/main/java/org/springframework/ldap/samples/useradmin/service/UserService.java:105 | the users kept by id from those found are read from their entries and cover every id that has an entry |
| Service.UserService.ElementsOf | servlet/xml/java/user-admin/src/main/java/org/springframework/ldap/samples/useradmin/service/UserService.java:109 | the elements of the set, each once |
| Service.UserService.DistinctById | servlet/xml/java/user-admin/src/main/java/org/springframework/ldap/samples/useradmin/service/UserService.java:105 | the first user of each id, in order: every user kept is one of the input, ids are distinct, and every input user has a kept user with its id |
| Service.UserService.CreateUser | servlet/xml/java/user-admin/src/main/java/org/springframework/ldap/samples/useradmin/service/UserService.java:82-92 | the user is saved; on success the ROLE_USER group gains exactly the user's absolute DN and nothing else changes; a failed save or a missing ROLE_USER group gives an error |
| Service.UserService.CopyEditableFields | servlet/xml/java/user-admin/src/main/java/org/springframework/ldap/samples/useradmin/service/UserService.java:118-125 | exactly first name, last name, full name, email, phone, title, department and unit are copied; id and employee number stay |
| Service.UserService.UpdateUser | servlet/xml/java/user-admin/src/main/java/org/springframework/ldap/samples/useradmin/service/UserService.java:114-133 | a missing user gives NameNotFound and no change; otherwise the copied user is saved, an unchanged DN leaves every group as it was, and a changed DN repoints every referencing group, except that the standard path on an AD directory leaves the old DN cleared from every group |
| Service.UserService.UpdateUserStandard | servlet/xml/java/user-admin/src/main/java/org/springframework/ldap/samples/useradmin/service/UserService.java:141-153 | save first; an unchanged DN leaves every group as it was, a changed DN repoints every group that still references the old absolute DN |
| Service.UserService.UpdateUserAd | servlet/xml/java/user-admin/src/main/java/org/springframework/ldap/samples/useradmin/service/UserService.java:171-183 | groups looked up before the save; an unchanged DN leaves every group as it was, a changed DN repoints every group that referenced the old absolute DN before the save |
| Service.UserService.RepointAndSave | servlet/xml/java/user-admin/src/main/java/org/springframework/ldap/samples/useradmin/service/UserService.java:187-190 | the group's entry holds the new DN in place of the old one, saved at its own DN, and nothing else changes |
| Service.UserService.UpdateGroupReferences | servlet/xml/java/user-admin/src/main/java/org/springframework/ldap/samples/useradmin/service/UserService.java:185-192 | every group handed in is repointed and saved, one after the other |
| GroupRepository.AdminUserLayout | servlet/xml/java/user-admin/src/main/java/org/springframework/ldap/samples/useradmin/domain/impl/GroupRepositoryImpl.java:44 | the System user is cn=System,ou=System,ou=IT,ou=Departments, a user DN |
| GroupRepository.GroupRepositoryImpl.AdminMember | servlet/xml/java/user-admin/src/main/java/org/springframework/ldap/samples/useradmin/domain/impl/GroupRepositoryImpl.java:75 | the absolute DN of the System user: the base path followed by the System user |
| GroupRepository.GroupRepositoryImpl.Create | servlet/xml/java/user-admin/src/main/java/org/springframework/ldap/samples/useradmin/domain/impl/GroupRepositoryImpl.java:73-80 | the members gain the System user and keep every other member, so they are never empty; the bind at cn=name,ou=Groups fails if and only if that DN is taken, and otherwise stores exactly the group's entry |
| GroupRepository.GroupRepositoryImpl.GetAllGroupNames | servlet/xml/java/user-admin/src/main/java/org/springframework/ldap/samples/useradmin/domain/impl/GroupRepositoryImpl.java:64-70 | the cn of every group entry, each once |
| Departments.OuValue | servlet/xml/java/user-admin/src/main/java/org/springframework/ldap/samples/useradmin/domain/impl/DepartmentRepositoryImpl.java:72-80 | the value if and only if the name has an ou component, which it then holds; else NoSuchRdn |
| Departments.OuValues | servlet/xml/java/user-admin/src/main/java/org/springframework/ldap/samples/useradmin/domain/impl/DepartmentRepositoryImpl.java:64 | one ou value per listed name, in order, if and only if every name has one |
| Departments.SampleDepartments | servlet/xml/java/user-admin/src/test/java/org/springframework/ldap/samples/useradmin/UserAdminIntegrationTests.java:59-65 | the department names ou=Accounting and ou=IT give the list Accounting, IT |
| Departments.DepartmentRepositoryImpl.GetAllDepartments | servlet/xml/java/user-admin/src/main/java/org/springframework/ldap/samples/useradmin/domain/impl/DepartmentRepositoryImpl.java:63-65 | succeeds if and only if every child of ou=Departments has an ou value, else fails with the missing-component error; one department per child, in order, each the ou value of that child |
| Departments.DepartmentRepositoryImpl.GetAllUnitsForDepartment | servlet/xml/java/user-admin/src/main/java/org/springframework/ldap/samples/useradmin/domain/impl/DepartmentRepositoryImpl.java:67-70 | succeeds if and only if every child of ou=department,ou=Departments has an ou value, else fails with the missing-component error; one unit per child, in order, each the ou value of that child |
| Departments.DepartmentRepositoryImpl.GetDepartmentMap | servlet/xml/java/user-admin/src/main/java/org/springframework/ldap/samples/useradmin/domain/impl/DepartmentRepositoryImpl.java:52-61 | the keys are exactly the listed departments, each mapped to its listed units; the map fails if and only if some listed name lacks an ou value |
| Departments.DepartmentRepositoryImpl.MapsUnitsStep | servlet/xml/java/user-admin/src/main/java/org/springframework/ldap/samples/useradmin/domain/impl/DepartmentRepositoryImpl.java:56-58 | putting the next department with its units extends the map to one more department |
| Departments.DepartmentRepositoryImpl.SampleDepartmentMap | servlet/xml/java/user-admin/src/test/java/org/springframework/ldap/samples/useradmin/UserAdminIntegrationTests.java:59-65 | on the sample directory the map has two departments, Accounting with one unit and IT with four |
| GroupWeb.NonMembers | servlet/xml/java/user-admin/src/main/java/org/springframework/ldap/samples/useradmin/web/GroupController.java:80-83 | a user of all is kept if and only if it is not among the members by equals |
| GroupWeb.NonMembersAppend | servlet/xml/java/user-admin/src/main/java/org/springframework/ldap/samples/useradmin/web/GroupController.java:81-83 | the filter keeps the order of findAll |
| GroupWeb.GroupController.SplitOfFound | servlet/xml/java/user-admin/src/main/java/org/springframework/ldap/samples/useradmin/web/GroupController.java:77-84 | filtering all stored users by the members leaves exactly the stored users the member DNs do not name |
| GroupWeb.GroupController.SplitCovers | servlet/xml/java/user-admin/src/main/java/org/springframework/ldap/samples/useradmin/web/GroupController.java:81-83 | members and non-members share no id and together hold every stored user |
| GroupWeb.GroupController.constructor | servlet/xml/java/user-admin/src/main/java/org/springframework/ldap/samples/useradmin/web/GroupController.java:49-52 | the controller works on the given repository and service |
| GroupWeb.GroupController.ListGroups | servlet/xml/java/user-admin/src/main/java/org/springframework/ldap/samples/useradmin/web/GroupController.java:54-58 | the view listGroups with the name of every group |
| GroupWeb.GroupController.InitNewGroup | servlet/xml/java/user-admin/src/main/java/org/springframework/ldap/samples/useradmin/web/GroupController.java:60-63 | the view newGroup |
| GroupWeb.GroupController.NewGroup | servlet/xml/java/user-admin/src/main/java/org/springframework/ldap/samples/useradmin/web/GroupController.java:65-70 | the group is created with the System member; a taken DN gives NameAlreadyBound; otherwise the redirect to the group page |
| GroupWeb.GroupController.EditGroup | servlet/xml/java/user-admin/src/main/java/org/springframework/ldap/samples/useradmin/web/GroupController.java:72-87 | null dereference if and only if there is no such group; otherwise the group, exactly its member users, and as non-members the users of findAll that are not members, in findAll's order, where findAll lists every stored user |
| GroupWeb.GroupController.AddUserToGroup | servlet/xml/java/user-admin/src/main/java/org/springframework/ldap/samples/useradmin/web/GroupController.java:89-97 | the named group gains the user's absolute DN and keeps its other members, and no other group changes; a missing group dereferences null |
| GroupWeb.GroupController.RemoveUserFromGroup | servlet/xml/java/user-admin/src/main/java/org/springframework/ldap/samples/useradmin/web/GroupController.java:99-107 | the named group loses the user's absolute DN and keeps its other members, and no other group changes; a missing group dereferences null |
| UserWeb.Inc | servlet/xml/java/user-admin/src/main/java/org/springframework/ldap/samples/useradmin/web/UserController.java:77 | one more, wrapping from the largest int to the smallest |
| UserWeb.AdvancedAdds | servlet/xml/java/user-admin/src/main/java/org/springframework/ldap/samples/useradmin/web/UserController.java:45-77 | away from the wrap-around, n increments add n |
| UserWeb.HasText | servlet/xml/java/user-admin/src/main/java/org/springframework/ldap/samples/useradmin/web/UserController.java:58 | true if and only if the string is present and has a character that is not whitespace |
| UserWeb.NonBlank | servlet/xml/java/user-admin/src/main/java/org/springframework/ldap/samples/useradmin/web/UserController.java:58 | true if and only if some character is not whitespace |
| UserWeb.UserController.constructor | servlet/xml/java/user-admin/src/main/java/org/springframework/ldap/samples/useradmin/web/UserController.java:45-54 | the counter starts at 10 |
| UserWeb.UserController.Index | servlet/xml/java/user-admin/src/main/java/org/springframework/ldap/samples/useradmin/web/UserController.java:56-65 | a stored user is listed if and only if the name has no text or the user's full name contains it; every listed user is read from the entry at its id |
| UserWeb.UserController.GetUser | servlet/xml/java/user-admin/src/main/java/org/springframework/ldap/samples/useradmin/web/UserController.java:67-72 | the view editUser with the stored user, or NameNotFound if and only if there is none |
| UserWeb.UserController.InitNewUser | servlet/xml/java/user-admin/src/main/java/org/springframework/ldap/samples/useradmin/web/UserController.java:74-84 | a new user holding the current counter value, marked new; the counter moves on by one; title, email and phone are unset |
| UserWeb.UserController.CreateUser | servlet/xml/java/user-admin/src/main/java/org/springframework/ldap/samples/useradmin/web/UserController.java:93-98 | the redirect to the page of the new DN, or the error of the save or of the missing ROLE_USER group |
| UserWeb.UserController.UpdateUser | servlet/xml/java/user-admin/src/main/java/org/springframework/ldap/samples/useradmin/web/UserController.java:100-105 | the redirect to the page of the DN after the update, or the error of the lookup or the save |
| UserWeb.EmployeeNumbersCountUp | servlet/xml/java/user-admin/src/main/java/org/springframework/ldap/samples/useradmin/web/UserController.java:45-77 | the first form gets 10 and each later form one more |
| People.PersonId | servlet/spring-boot/java/security/src/main/java/example/Person.java:30-38 | the DN is uid=username below ou=people |
| People.Person.constructor | servlet/spring-boot/java/security/src/main/java/example/Person.java:46-48 | every field unset |
| People.Person.WithUsername | servlet/spring-boot/java/security/src/main/java/example/Person.java:50-52 | only the username is set |
| People.Person.Copy | servlet/spring-boot/java/security/src/main/java/example/Person.java:54-59 | dn, username, name and last name are copied exactly |
| People.Person.FromEntry | servlet/spring-boot/java/security/src/main/java/example/Person.java:30-44 | the object read from the entry at a DN holds that DN and the entry's uid, cn and sn |
| People.Person.CalculatedId | servlet/spring-boot/java/security/src/main/java/example/Person.java:30-38 | a DN if and only if there is a username, and then uid=username,ou=people |
| People.Person.SetDn | servlet/spring-boot/java/security/src/main/java/example/Person.java:65-67 | stores the dn |
| People.Person.SetUsername | servlet/spring-boot/java/security/src/main/java/example/Person.java:73-75 | stores the username |
| People.Person.SetName | servlet/spring-boot/java/security/src/main/java/example/Person.java:83-85 | stores the name |
| People.Person.SetLastName | servlet/spring-boot/java/security/src/main/java/example/Person.java:91-93 | stores the last name |
| People.RenameToAri | servlet/spring-boot/java/security/src/test/java/example/SecurityApplicationTests.java:142-145 | a person read as dante whose username becomes ari keeps the dante DN and calculates uid=ari,ou=people |
| People.SaveOfRenamedPersonMoves | servlet/spring-boot/java/security/src/test/java/example/SecurityApplicationTests.java:142-156 | saving that person moves the entry from uid=dante to uid=ari with its attributes |
| Security.Authority | servlet/spring-boot/java/security/src/main/java/example/PersonContextMapper.java:49-52 | ROLE_ADMIN if and only if the user's DN is among the uniqueMember values, ROLE_USER otherwise |
| Security.UserDetailsPerson.constructor | servlet/spring-boot/java/security/src/main/java/example/PersonContextMapper.java:67-70 | the same dn, username, name and last name as the person, and the one-element authority list |
| Security.UserDetailsPerson.GetAuthorities | servlet/spring-boot/java/security/src/main/java/example/PersonContextMapper.java:72-75 | exactly one granted authority |
| Security.UserDetailsPerson.GetPassword | servlet/spring-boot/java/security/src/main/java/example/PersonContextMapper.java:77-80 | never a password |
| Security.MapUserFromContext | servlet/spring-boot/java/security/src/main/java/example/PersonContextMapper.java:45-55 | the person read from the bound entry with the authority the managers group decides; a missing managers entry fails |
| Security.MapUserToContext | servlet/spring-boot/java/security/src/main/java/example/PersonContextMapper.java:57-60 | always an unsupported operation |
| Serialization.FieldValueOf | servlet/spring-boot/java/security/src/main/java/example/ldap/AttributesSerializer.java:45-55 | null if and only if no value, the value itself if and only if one, and otherwise a list of all values; the values are always kept |
| Serialization.FieldValueFaithful | servlet/spring-boot/java/security/src/main/java/example/ldap/AttributesSerializer.java:45-55 | two attributes give the same field value if and only if they hold the same values in the same order |
| Serialization.FieldsOf | servlet/spring-boot/java/security/src/main/java/example/ldap/AttributesSerializer.java:42-56 | one field per attribute, named by its id, in iteration order |
| Serialization.Serialized | servlet/spring-boot/java/security/src/main/java/example/ldap/AttributesSerializer.java:36-57 | other attributes get the default serialization; name-aware ones get one field per attribute holding all of its values |
| Serialization.Generator.WriteField | servlet/spring-boot/java/security/src/main/java/example/ldap/AttributesSerializer.java:46 | the generator receives one more field |
| Serialization.Generator.WriteDefault | servlet/spring-boot/java/security/src/main/java/example/ldap/AttributesSerializer.java:39 | the generator receives the default serialization |
| Serialization.CollectValues | servlet/spring-boot/java/security/src/main/java/example/ldap/AttributesSerializer.java:52-53 | all values of the attribute, in order |
| Serialization.Serialize | servlet/spring-boot/java/security/src/main/java/example/ldap/AttributesSerializer.java:36-57 | the generator receives exactly the serialized writes |
| PlainWeb.ContainsValue | servlet/xml/java/plain/src/main/java/org/springframework/ldap/samples/plain/web/DefaultController.java:135-142 | true if and only if some element equals the value; false for no elements |
| PlainWeb.GetLinkForNode | servlet/xml/java/plain/src/main/java/org/springframework/ldap/samples/plain/web/DefaultController.java:116-129 | a person entry links to showPerson with its encoded c, ou and cn values, failing if and only if one is missing; any other entry gets the base link |
| PlainWeb.PersonLink | servlet/xml/java/plain/src/main/java/org/springframework/ldap/samples/plain/web/DefaultController.java:120-124 | the link is showPerson.do?country=, the encoded country, &company=, the encoded company, &fullName= and the encoded full name, in that order and nothing else |
| PlainWeb.PersonDnValues | servlet/xml/java/plain/src/main/java/org/springframework/ldap/samples/plain/web/DefaultController.java:119-122 | in c=country,ou=company,cn=fullName the three lookups find the three values |
| PlainWeb.Person.constructor | servlet/xml/java/plain/src/main/java/org/springframework/ldap/samples/plain/web/DefaultController.java:99 | every field unset |
| PlainWeb.Person.FromRecord | servlet/xml/java/plain/src/main/java/org/springframework/ldap/samples/plain/web/DefaultController.java:77 | the object read from the store holds exactly the stored record |
| PlainWeb.Person.SetFullName | servlet/xml/java/plain/src/main/java/org/springframework/ldap/samples/plain/web/DefaultController.java:100 | stores the full name |
| PlainWeb.Person.SetLastName | servlet/xml/java/plain/src/main/java/org/springframework/ldap/samples/plain/web/DefaultController.java:101 | stores the last name |
| PlainWeb.Person.SetCompany | servlet/xml/java/plain/src/main/java/org/springframework/ldap/samples/plain/web/DefaultController.java:102 | stores the company |
| PlainWeb.Person.SetCountry | servlet/xml/java/plain/src/main/java/org/springframework/ldap/samples/plain/web/DefaultController.java:103 | stores the country |
| PlainWeb.Person.SetDescription | servlet/xml/java/plain/src/main/java/org/springframework/ldap/samples/plain/web/DefaultController.java:104 | stores the description |
| PlainWeb.Person.SetPhone | servlet/xml/java/plain/src/main/java/org/springframework/ldap/samples/plain/web/DefaultController.java:78 | stores the phone |
| PlainWeb.Join | servlet/xml/java/plain/src/main/java/org/springframework/ldap/samples/plain/web/DefaultController.java:78 | the concatenation of the two strings, a missing first string counting as empty |
| PlainWeb.PersonStore.FindByPrimaryKey | servlet/xml/java/plain/src/main/java/org/springframework/ldap/samples/plain/web/DefaultController.java:77 | the stored person at the key read into a new object, or NameNotFound if and only if there is none |
| PlainWeb.PersonStore.Update | servlet/xml/java/plain/src/main/java/org/springframework/ldap/samples/plain/web/DefaultController.java:80 | the record at the person's key is replaced by the person's fields; a missing key gives NameNotFound and no change |
| PlainWeb.DefaultController.GetPerson | servlet/xml/java/plain/src/main/java/org/springframework/ldap/samples/plain/web/DefaultController.java:98-106 | always John Doe, Doe, company1, Sweden, Test user, with no phone |
| PlainWeb.DefaultController.UpdatePhoneNumber | servlet/xml/java/plain/src/main/java/org/springframework/ldap/samples/plain/web/DefaultController.java:75-82 | the phone of John Doe of company1, Sweden gains a trailing 0 and nothing else changes; a missing person gives NameNotFound |

## Left out

- The LDAP server and the wire traffic of bind, search, list and modify are not modelled. The Spring Data query generation and the ODM annotation processing are not modelled either. Their effect on the entries is the in-memory `Directory` and the explicit DN functions.
- DN strings are not modelled: parsing (`LdapUtils.newLdapName`) and printing (`Name.toString`, the string form of section 3 of RFC 4514) are the `parse` and `show` parameters.
- Name comparison is structural and exact. LdapName's case-insensitive matching of attribute types and values is not modelled. The same holds for `getStringValue`'s case-insensitive key match.
- Directory.ContainsText: matching of the `(cn=*text*)` filter is exact and case-sensitive here, where the directory's substring match on cn usually ignores case. The same holds for Directory.Directory.FindUsersByFullNameContains, Service.UserService.SearchByName and UserWeb.UserController.Index, which use it.
- Directory.Directory.FindGroupByName: looks up the exact key cn=name,ou=Groups, where `findByName`'s `(cn={0})` filter usually matches the name regardless of case.
- Security.MapUserFromContext: nameInNamespace, the printed full DN of the bound entry, is a separate parameter and is not tied to ctxDn, because DN printing is not modelled.
- `URLEncoder.encode` is the `encode` parameter. The base `HtmlRowLdapTreeVisitor` link is the `superLink` parameter. The tree builder and the tree visitor (`LdapTree`, `LdapTreeBuilder`) are not part of this model, and neither is `showTree`.
- The plain sample's `Person` class and `PersonRepository` are not part of this model. `PlainWeb.Person` holds only the fields the controller uses, and `PlainWeb.PersonStore` stands in for the repository, keyed by country, company and full name. `addPerson`, `removePerson`, `showPerson` and `welcomeHandler` are one-call delegations to that repository and are not modelled.
- `getStringAttributes` returning null for an entry without objectClass or uniqueMember values is not modelled. The values are always a sequence, possibly empty.
- The security wiring is not modelled: SecurityConfig.java, the `@PreAuthorize` and `@HandleAuthorizationDenied` on `Person.getName`, and the authorization of returned objects. `PersonController.java`, `PersonRepositoryExtensionImpl.java` and `DirContextOperationsMapper.java` are one-call delegations and are not modelled.
- The Jackson plumbing is not modelled: AttributesDeserializer.java, NameDeserializer.java, NameFormatter.java, `readerForUpdating`, and the JSON text of `populateDepartments`. `UserController.getUser` and `initNewUser` do not model `populateDepartments`. The department map itself is `Departments.DepartmentRepositoryImpl.GetDepartmentMap`.
- The atomicity of `AtomicInteger` is not modelled. The counter is a plain sequential field with 32-bit wrap-around.
- A Java `String` field of `User` and `Group` that was never set is null; here it is the empty string. The Boot sample's `Person` keeps null as `None` because its properties are about null. So the model saves a user that was never given a department, unit or full name, at a DN whose components are empty, where the ODM mapping would fail on the null DN attributes.
- The base path that Spring injects into `UserService` and `GroupRepositoryImpl` is taken to be the base of the directory they work on.
- HTTP routing and `ModelMap` rendering are not modelled. View names and redirect strings are returned values. `EditGroupView` is the model map of the edit page.
- Failures are not modelled as exceptions. A failing repository call is a `Result` error that the caller passes on at once. `createUser` does not check the result of the group save, and neither does the model.
- The iteration order of a `HashSet`, and the order in which the server returns query results, are unspecified. The model fixes no order, and states only membership and distinctness for those results.
- The AD flavour is modelled as a directory that clears a user's DN from every group when it unbinds that user on a move. Other Active Directory behaviour is not modelled.
- GroupWeb.GroupController.EditGroup: does not state that the member and non-member user objects are newly allocated, because proving freshness through two allocating calls is too costly; it states which stored users they are.
- Serialization.Serialize: writes only the fields. The enclosing JSON object, and the serialization of each value, belong to the generator, which is modelled as the sequence of writes it receives.

## Design and code

- The design describes the new-user counter as monotonically increasing. In the code it is an `AtomicInteger` handing out Java `int`s, so after 2147483647 it wraps to -2147483648. The model follows the code (`UserWeb.Inc`). `UserWeb.AdvancedAdds` proves that the counter counts up away from the wrap.
